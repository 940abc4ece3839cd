/**
 * The custom reader for dataset 58 (function at nodal degree of freedom) of the
 * universal file format, as used for simplified reconstructed FRF files.
 *
 * It works on the lines of the file (line terminators already removed) and
 * goes through five stages:
 *   1. find the first "-1" line directly followed by a "58" line;
 *   2. skip one header line and decode the data-characteristic line;
 *   3. skip four axis-definition lines and look for the first payload line;
 *   4. collect real numbers from the payload lines;
 *   5. pad / truncate them to N rows of two columns and build the frequency axis.
 *
 * Python's `int()` and `float()` applied to one token are not modelled
 * lexically: they are the two partial functions of a `Decoders` value.
 */
module Dataset58 {
  import opened Results
  import opened Text
  import opened UniversalFile

  /** Axis-definition lines between the characteristic line and the payload search. */
  const AxisLinesToSkip: nat := 4
  /** The payload search gives up once the line index passes this value. */
  const ScanLimit: nat := 100

  /** Python's `int()` and `float()` on a single whitespace-free token. */
  datatype Decoders = Decoders(toInt: string -> Option<int>, toReal: string -> Option<real>)

  datatype ParseError =
    | NoDataset58                // no "-1" line directly followed by a "58" line
    | MissingHeaderLine          // the file ends before the header or characteristic line
    | ShortCharacteristicLine    // the characteristic line has fewer than 3 tokens
    | BadIntegerField(index: nat)
    | BadRealField(index: nat)
    | DataNotWithinScanLimit     // no payload line up to line index 100
    | DataNotFound               // the file ends before a payload line
    | NoPoints                   // point count <= 0: the axis cannot be built

  /** The values of the data-characteristic line (record 7 of dataset 58). */
  datatype Characteristic = Characteristic(
    dataType: int, numPoints: int, spacingType: int, xMin: real, xIncrementOrMax: real)

  /** Why the payload collection stopped. */
  datatype StopReason =
    | SentinelSeen   // a line stripping to "-1"
    | Filled         // 2N values collected
    | SafetyBound    // more than 3N non-blank lines consumed
    | EndOfLines

  /** What the collection produced: the values, the first unconsumed line, the reason. */
  datatype Collected = Collected(values: seq<real>, next: nat, stop: StopReason)

  /**
   * A parsed record: `x` is the frequency axis, `data` the N rows of two
   * columns. The remaining fields are not part of the source's result; they
   * expose where the payload lay (`payloadStart` up to `payloadEnd`), how many
   * values it gave and why the collection stopped.
   */
  datatype Record = Record(
    dataType: int, numPoints: nat, x: seq<real>, data: seq<(real, real)>,
    payloadStart: nat, payloadEnd: nat, valuesCollected: nat, stop: StopReason)

  /* ---------------------------- 1. the marker ---------------------------- */

  predicate MarkerAt(lines: seq<string>, m: int) {
    0 <= m && m + 1 < |lines| && Strip(lines[m]) == Sentinel && Strip(lines[m + 1]) == FunctionDataset
  }

  /** The first marker at or after `from`. */
  function FindMarker(lines: seq<string>, from: nat): (r: Option<nat>)
    requires from <= |lines|
    ensures r.Some? ==> from <= r.value && MarkerAt(lines, r.value)
    ensures r.Some? ==> forall j :: from <= j < r.value ==> !MarkerAt(lines, j)
    ensures r.None? <==> forall j :: from <= j < |lines| ==> !MarkerAt(lines, j)
    decreases |lines| - from
  {
    if from == |lines| then None
    else if MarkerAt(lines, from) then Some(from)
    else FindMarker(lines, from + 1)
  }

  /* ---------------------- 2. the characteristic line ---------------------- */

  function DecodeInt(tokens: seq<string>, k: nat, dec: Decoders): Result<int, ParseError>
    requires k < |tokens|
  {
    dec.toInt(tokens[k]).ToResult(BadIntegerField(k))
  }

  function DecodeReal(tokens: seq<string>, k: nat, dec: Decoders): Result<real, ParseError>
    requires k < |tokens|
  {
    dec.toReal(tokens[k]).ToResult(BadRealField(k))
  }

  /**
   * Tokens 0..2 are the data type, the point count and the spacing type; only
   * when there are at least six tokens are tokens 3 and 4 read as the axis
   * start and the increment-or-end. Integer fields are decoded before real ones.
   */
  function ReadCharacteristic(tokens: seq<string>, dec: Decoders): (r: Result<Characteristic, ParseError>)
    ensures r == Err(ShortCharacteristicLine) <==> |tokens| < 3
    ensures r.Ok? <==>
              && |tokens| >= 3
              && (forall k :: 0 <= k < 3 ==> dec.toInt(tokens[k]).Some?)
              && (|tokens| >= 6 ==> forall k :: 3 <= k < 5 ==> dec.toReal(tokens[k]).Some?)
    ensures r.Ok? ==>
              && dec.toInt(tokens[0]) == Some(r.value.dataType)
              && dec.toInt(tokens[1]) == Some(r.value.numPoints)
              && dec.toInt(tokens[2]) == Some(r.value.spacingType)
    ensures r.Ok? && |tokens| < 6 ==> r.value.xMin == 0.0 && r.value.xIncrementOrMax == 1.0
    ensures r.Ok? && |tokens| >= 6 ==>
              dec.toReal(tokens[3]) == Some(r.value.xMin) && dec.toReal(tokens[4]) == Some(r.value.xIncrementOrMax)
    ensures r.Err? && r.error.BadIntegerField? ==>
              var k := r.error.index;
              k < 3 <= |tokens| && dec.toInt(tokens[k]).None? && forall j :: 0 <= j < k ==> dec.toInt(tokens[j]).Some?
    ensures r.Err? && r.error.BadRealField? ==>
              var k := r.error.index;
              && 3 <= k < 5 && 6 <= |tokens| && dec.toReal(tokens[k]).None?
              && (forall j :: 0 <= j < 3 ==> dec.toInt(tokens[j]).Some?)
              && (forall j :: 3 <= j < k ==> dec.toReal(tokens[j]).Some?)
    ensures r.Err? ==> r.error.ShortCharacteristicLine? || r.error.BadIntegerField? || r.error.BadRealField?
  {
    if |tokens| < 3 then Err(ShortCharacteristicLine)
    else
      var dataType :- DecodeInt(tokens, 0, dec);
      var numPoints :- DecodeInt(tokens, 1, dec);
      var spacingType :- DecodeInt(tokens, 2, dec);
      if |tokens| >= 6 then
        var xMin :- DecodeReal(tokens, 3, dec);
        var xIncrementOrMax :- DecodeReal(tokens, 4, dec);
        Ok(Characteristic(dataType, numPoints, spacingType, xMin, xIncrementOrMax))
      else
        Ok(Characteristic(dataType, numPoints, spacingType, 0.0, 1.0))
  }

  /* ---------------------- 3. the start of the payload ---------------------- */

  /** A line containing `e` or `E` whose first two tokens are real numbers. */
  predicate IsPayloadStart(line: string, dec: Decoders) {
    var t := Strip(line);
    && ('E' in t || 'e' in t)
    && var parts := Split(t);
       |parts| >= 2 && dec.toReal(parts[0]).Some? && dec.toReal(parts[1]).Some?
  }

  function Max(a: int, b: int): int {
    if a < b then b else a
  }

  /**
   * The search for the payload from line `start`. The index check comes after
   * the increment, so lines up to index `Max(start, 100)` are examined.
   */
  function ScanPayload(lines: seq<string>, start: nat, dec: Decoders): (r: Result<nat, ParseError>)
    ensures r.Ok? ==>
              && start <= r.value < |lines| && r.value <= Max(start, ScanLimit)
              && IsPayloadStart(lines[r.value], dec)
              && forall j :: start <= j < r.value ==> !IsPayloadStart(lines[j], dec)
    ensures r.Err? ==>
              && (r.error == DataNotWithinScanLimit || r.error == DataNotFound)
              && (r.error == DataNotWithinScanLimit <==> Max(start, ScanLimit) < |lines|)
              && forall j :: start <= j < |lines| && j <= Max(start, ScanLimit) ==> !IsPayloadStart(lines[j], dec)
    decreases |lines| - start
  {
    if start >= |lines| then Err(DataNotFound)
    else if IsPayloadStart(lines[start], dec) then Ok(start)
    else if start + 1 > ScanLimit then Err(DataNotWithinScanLimit)
    else ScanPayload(lines, start + 1, dec)
  }

  /* ------------------------ 4. collecting the values ------------------------ */

  /** The tokens of a line that `float()` accepts, decoded, in order; the others are skipped. */
  function ParseAll(tokens: seq<string>, dec: Decoders): (vs: seq<real>)
    ensures |vs| <= |tokens|
    ensures (forall k :: 0 <= k < |tokens| ==> dec.toReal(tokens[k]).None?) ==> vs == []
  {
    if |tokens| == 0 then []
    else
      var rest := ParseAll(tokens[1..], dec);
      match dec.toReal(tokens[0])
      case Some(v) => [v] + rest
      case None => rest
  }

  /** Decoding token by token does not depend on how the tokens are grouped. */
  lemma {:induction false} ParseAllAppend(a: seq<string>, b: seq<string>, dec: Decoders)
    ensures ParseAll(a + b, dec) == ParseAll(a, dec) + ParseAll(b, dec)
    decreases |a|
  {
    if |a| == 0 {
      assert a + b == b;
    } else {
      assert (a + b)[1..] == a[1..] + b;
      ParseAllAppend(a[1..], b, dec);
    }
  }

  /** When every token is a number, nothing is skipped and the order is kept. */
  lemma {:induction false} ParseAllNumbers(tokens: seq<string>, vs: seq<real>, dec: Decoders)
    requires |vs| == |tokens|
    requires forall k :: 0 <= k < |tokens| ==> dec.toReal(tokens[k]) == Some(vs[k])
    ensures ParseAll(tokens, dec) == vs
    decreases |tokens|
  {
    if |tokens| > 0 {
      ParseAllNumbers(tokens[1..], vs[1..], dec);
      assert vs == [vs[0]] + vs[1..];
    }
  }

  predicate IsBlank(line: string) {
    Strip(line) == []
  }

  function LineValues(line: string, dec: Decoders): seq<real> {
    ParseAll(Split(Strip(line)), dec)
  }

  /**
   * What the collection loop looks at in a line: whether it strips to "-1",
   * whether it is blank, and otherwise the numbers on it.
   */
  datatype PayloadLine = EndMarker | BlankLine | ValueLine(values: seq<real>)

  function Classify(line: string, dec: Decoders): (p: PayloadLine)
    ensures p == EndMarker <==> Strip(line) == Sentinel
    ensures p == BlankLine <==> IsBlank(line)
    ensures p.ValueLine? ==> p.values == LineValues(line, dec)
  {
    var t := Strip(line);
    if t == Sentinel then EndMarker
    else if t == [] then BlankLine
    else ValueLine(ParseAll(Split(t), dec))
  }

  function PayloadLines(lines: seq<string>, dec: Decoders): (rows: seq<PayloadLine>)
    ensures |rows| == |lines|
    ensures forall k :: 0 <= k < |lines| ==> rows[k] == Classify(lines[k], dec)
  {
    seq(|lines|, k requires 0 <= k < |lines| => Classify(lines[k], dec))
  }

  /** The numbers a line contributes; a blank line contributes none. */
  function RowValues(p: PayloadLine): seq<real> {
    if p.ValueLine? then p.values else []
  }

  /** All values on lines `a` to `b - 1`, in order. */
  function Harvest(rows: seq<PayloadLine>, a: nat, b: nat): seq<real>
    requires a <= b <= |rows|
    decreases b - a
  {
    if a == b then [] else Harvest(rows, a, b - 1) + RowValues(rows[b - 1])
  }

  /** The number of non-blank lines among lines `a` to `b - 1`. */
  function NonBlank(rows: seq<PayloadLine>, a: nat, b: nat): nat
    requires a <= b <= |rows|
    decreases b - a
  {
    if a == b then 0 else NonBlank(rows, a, b - 1) + (if rows[b - 1] == BlankLine then 0 else 1)
  }

  /**
   * Line `j` is taken in by the collection loop started at `start`: it is no
   * "-1" line, and when the loop reaches it fewer than `target` values are
   * collected and at most `cap` non-blank lines are consumed.
   */
  predicate TakenIn(rows: seq<PayloadLine>, start: nat, j: nat, target: int, cap: int)
    requires start <= j < |rows|
  {
    && rows[j] != EndMarker
    && |Harvest(rows, start, j)| < target
    && NonBlank(rows, start, j) <= cap
  }

  /** The loop may stop at `c` for the reason `c` records. */
  predicate StoppedFor(rows: seq<PayloadLine>, start: nat, c: Collected, target: int, cap: int)
    requires start <= c.next <= |rows|
  {
    match c.stop
    case Filled => |c.values| >= target
    case EndOfLines => c.next == |rows| && |c.values| < target
    case SentinelSeen => c.next < |rows| && rows[c.next] == EndMarker && |c.values| < target
    case SafetyBound => NonBlank(rows, start, c.next) > cap
  }

  /** The collection loop from line `i` on, with `vals` and `parsed` its running state. */
  function Accumulate(rows: seq<PayloadLine>, start: nat, i: nat, target: int, cap: int,
                      vals: seq<real>, parsed: nat): (c: Collected)
    requires start <= i <= |rows|
    requires vals == Harvest(rows, start, i) && parsed == NonBlank(rows, start, i)
    requires parsed <= cap || |vals| >= target
    requires forall j :: start <= j < i ==> TakenIn(rows, start, j, target, cap)
    ensures i <= c.next <= |rows|
    ensures c.values == Harvest(rows, start, c.next)
    ensures forall j :: start <= j < c.next ==> TakenIn(rows, start, j, target, cap)
    ensures StoppedFor(rows, start, c, target, cap)
    decreases |rows| - i
  {
    if |vals| >= target then Collected(vals, i, Filled)
    else if i == |rows| then Collected(vals, i, EndOfLines)
    else
      match rows[i]
      case EndMarker => Collected(vals, i, SentinelSeen)
      case BlankLine =>
        assert TakenIn(rows, start, i, target, cap);
        assert Harvest(rows, start, i + 1) == vals + [];
        Accumulate(rows, start, i + 1, target, cap, vals, parsed)
      case ValueLine(vs) =>
        assert TakenIn(rows, start, i, target, cap);
        assert Harvest(rows, start, i + 1) == vals + vs;
        assert NonBlank(rows, start, i + 1) == parsed + 1;
        if parsed + 1 > cap then Collected(vals + vs, i + 1, SafetyBound)
        else Accumulate(rows, start, i + 1, target, cap, vals + vs, parsed + 1)
  }

  /** A line of values reached before the target and within the bound is consumed, and the loop goes on. */
  lemma AccumulateTakes(rows: seq<PayloadLine>, start: nat, i: nat, target: int, cap: int,
                        vals: seq<real>, parsed: nat, vs: seq<real>)
    requires start <= i < |rows|
    requires vals == Harvest(rows, start, i) && parsed == NonBlank(rows, start, i)
    requires forall j :: start <= j < i ==> TakenIn(rows, start, j, target, cap)
    requires rows[i] == ValueLine(vs) && |vals| < target && parsed + 1 <= cap
    ensures TakenIn(rows, start, i, target, cap)
    ensures Harvest(rows, start, i + 1) == vals + vs && NonBlank(rows, start, i + 1) == parsed + 1
    ensures Accumulate(rows, start, i, target, cap, vals, parsed)
            == Accumulate(rows, start, i + 1, target, cap, vals + vs, parsed + 1)
  {
    assert TakenIn(rows, start, i, target, cap);
    assert Harvest(rows, start, i + 1) == vals + vs;
  }

  /** The payload collection for `n` points starting at line `start`. */
  function Collect(lines: seq<string>, dec: Decoders, start: nat, n: int): (c: Collected)
    requires start <= |lines|
    ensures var rows := PayloadLines(lines, dec);
            && start <= c.next <= |lines|
            && c.values == Harvest(rows, start, c.next)
            && (forall j :: start <= j < c.next ==> TakenIn(rows, start, j, 2 * n, 3 * n))
            && StoppedFor(rows, start, c, 2 * n, 3 * n)
  {
    Accumulate(PayloadLines(lines, dec), start, start, 2 * n, 3 * n, [], 0)
  }

  /* ------------------------ 5. shaping the record ------------------------ */

  /** The `j`-th collected value, or the padding zero past the end. */
  function ValueAt(vs: seq<real>, j: nat): real {
    if j < |vs| then vs[j] else 0.0
  }

  /** Appends zeros until there are at least `m` values. */
  function Pad(vs: seq<real>, m: nat): (r: seq<real>)
    ensures |r| == Max(|vs|, m)
    ensures forall j :: 0 <= j < |r| ==> r[j] == ValueAt(vs, j)
    decreases m - |vs|
  {
    if |vs| >= m then vs else Pad(vs + [0.0], m)
  }

  /** Reshapes a flat sequence of even length into rows of two. */
  function Pairs(flat: seq<real>): (rows: seq<(real, real)>)
    requires |flat| % 2 == 0
    ensures 2 * |rows| == |flat|
    ensures forall k :: 0 <= k < |rows| ==> rows[k] == (flat[2 * k], flat[2 * k + 1])
  {
    if |flat| == 0 then []
    else
      var rest := Pairs(flat[2..]);
      assert forall k :: 1 <= k < |rest| + 1 ==> flat[2 * k] == flat[2..][2 * (k - 1)];
      [(flat[0], flat[1])] + rest
  }

  /**
   * Exactly `n` rows; row `k` holds values `2k` and `2k + 1`, zero where fewer
   * were collected. Surplus values are discarded.
   */
  function Shape(vs: seq<real>, n: nat): (rows: seq<(real, real)>)
    ensures |rows| == n
    ensures forall k :: 0 <= k < n ==> rows[k] == (ValueAt(vs, 2 * k), ValueAt(vs, 2 * k + 1))
  {
    var padded := Pad(vs, 2 * n);
    Pairs(padded[..2 * n])
  }

  /**
   * The header reals are taken as the two ends of the axis only for spacing
   * type 1 and an end above `xMin + 1`; otherwise the second one is a step.
   */
  predicate UsesEndpoints(spacingType: int, xMin: real, xIncrementOrMax: real) {
    spacingType == 1 && xIncrementOrMax > xMin + 1.0
  }

  /** The spacing `linspace` uses between its `n` points. */
  function LinspaceStep(a: real, b: real, n: nat): real {
    if n > 1 then (b - a) / ((n - 1) as real) else 0.0
  }

  /** numpy's `linspace(a, b, n)`: `k * step + a`, with the last point set to `b` exactly. */
  function Linspace(a: real, b: real, n: nat): (xs: seq<real>)
    ensures |xs| == n
    ensures n > 0 ==> xs[0] == a
    ensures n > 1 ==> xs[n - 1] == b
  {
    seq(n, k requires 0 <= k < n => if n > 1 && k == n - 1 then b else (k as real) * LinspaceStep(a, b, n) + a)
  }

  /** numpy's `arange(n) * step + a`. */
  function Arange(n: nat, step: real, a: real): (xs: seq<real>)
    ensures |xs| == n
    ensures n > 0 ==> xs[0] == a
    ensures forall k :: 0 < k < n ==> xs[k] - xs[k - 1] == step
  {
    seq(n, k requires 0 <= k < n => (k as real) * step + a)
  }

  /** Consecutive `linspace` points are one step apart, the last one included. */
  lemma LinspaceUniform(a: real, b: real, n: nat, k: nat)
    requires k + 1 < n
    ensures Linspace(a, b, n)[k + 1] - Linspace(a, b, n)[k] == (b - a) / ((n - 1) as real)
  {
    var s := LinspaceStep(a, b, n);
    var d := (n - 1) as real;
    assert d * s == b - a;
    if k + 1 == n - 1 {
      calc {
        Linspace(a, b, n)[k + 1] - Linspace(a, b, n)[k];
        b - ((k as real) * s + a);
        { assert (k as real) == d - 1.0; }
        b - ((d - 1.0) * s + a);
        d * s + a - ((d - 1.0) * s + a);
        s;
      }
    } else {
      calc {
        Linspace(a, b, n)[k + 1] - Linspace(a, b, n)[k];
        ((k + 1) as real) * s + a - ((k as real) * s + a);
        s;
      }
    }
  }

  /**
   * The frequency axis of `n` points: evenly spaced from `xMin` to
   * `xIncrementOrMax` when the header gives the two ends, otherwise starting at
   * `xMin` with step `xIncrementOrMax`.
   */
  function FrequencyAxis(n: nat, spacingType: int, xMin: real, xIncrementOrMax: real): (x: seq<real>)
    ensures |x| == n
    ensures n > 0 ==> x[0] == xMin
    ensures UsesEndpoints(spacingType, xMin, xIncrementOrMax) && n > 1 ==>
              && x[n - 1] == xIncrementOrMax
              && forall k :: 0 <= k < n - 1 ==> x[k + 1] - x[k] == (xIncrementOrMax - xMin) / ((n - 1) as real)
    ensures !UsesEndpoints(spacingType, xMin, xIncrementOrMax) ==>
              forall k :: 0 <= k < n - 1 ==> x[k + 1] - x[k] == xIncrementOrMax
  {
    if UsesEndpoints(spacingType, xMin, xIncrementOrMax) then
      var x := Linspace(xMin, xIncrementOrMax, n);
      assert forall k: nat :: k + 1 < n ==> x[k + 1] - x[k] == (xIncrementOrMax - xMin) / ((n - 1) as real) by {
        forall k: nat | k + 1 < n
          ensures x[k + 1] - x[k] == (xIncrementOrMax - xMin) / ((n - 1) as real)
        {
          LinspaceUniform(xMin, xIncrementOrMax, n, k);
        }
      }
      x
    else
      var x := Arange(n, xIncrementOrMax, xMin);
      assert forall k :: 0 <= k < n - 1 ==> x[k + 1] - x[k] == xIncrementOrMax by {
        forall k | 0 <= k < n - 1
          ensures x[k + 1] - x[k] == xIncrementOrMax
        {
          assert ((k + 1) as real) * xIncrementOrMax == (k as real) * xIncrementOrMax + xIncrementOrMax;
        }
      }
      x
  }

  /** A sequence with first element `a` and constant difference `d` is `a + k * d`. */
  lemma {:induction false} ArithmeticProgression(x: seq<real>, a: real, d: real, k: nat)
    requires |x| > 0 && x[0] == a
    requires forall j :: 0 <= j < |x| - 1 ==> x[j + 1] - x[j] == d
    requires k < |x|
    ensures x[k] == a + (k as real) * d
  {
    if k > 0 {
      ArithmeticProgression(x, a, d, k - 1);
      assert x[k] == x[k - 1] + d;
    }
  }

  /**
   * The two readings of the header on the same start: an end of 100 above a
   * start of 0 is an endpoint, the axis ending exactly there; 0.5 is a step.
   */
  lemma EndpointOrStep(n: nat)
    requires n > 1
    ensures FrequencyAxis(n, 1, 0.0, 100.0)[0] == 0.0
    ensures FrequencyAxis(n, 1, 0.0, 100.0)[n - 1] == 100.0
    ensures forall k :: 0 <= k < n ==> FrequencyAxis(n, 1, 0.0, 0.5)[k] == (k as real) * 0.5
  {
    var x := FrequencyAxis(n, 1, 0.0, 0.5);
    forall k | 0 <= k < n
      ensures x[k] == (k as real) * 0.5
    {
      ArithmeticProgression(x, 0.0, 0.5, k);
    }
  }

  /**
   * A short payload is not an error: the values that were not found read as
   * zero, whatever the reason the collection stopped.
   */
  lemma ShortPayloadPaddedWithZeros(lines: seq<string>, dec: Decoders)
    ensures var r := Parse(lines, dec);
            r.Ok? ==>
              forall k :: 0 <= k < r.value.numPoints ==>
                && (2 * k >= r.value.valuesCollected ==> r.value.data[k].0 == 0.0)
                && (2 * k + 1 >= r.value.valuesCollected ==> r.value.data[k].1 == 0.0)
  {
    if Parse(lines, dec).Ok? {
      var m := FindMarker(lines, 0).value;
      assert Parse(lines, dec) == ParseAt(lines, m, dec);
    }
  }

  /* ------------------------------ the parser ------------------------------ */

  /** The characteristic line's tokens when the marker is at line `m`. */
  function CharacteristicTokens(lines: seq<string>, m: nat): seq<string>
    requires m + 3 < |lines|
  {
    Split(lines[m + 3])
  }

  /**
   * Everything after the marker at line `m`: header, characteristic line,
   * payload. The stages fail in order: the characteristic line first, then the
   * payload search, and only then a point count below 1.
   */
  function ParseAt(lines: seq<string>, m: nat, dec: Decoders): (r: Result<Record, ParseError>)
    ensures r != Err(NoDataset58)
    ensures m + 3 >= |lines| ==> r == Err(MissingHeaderLine)
    ensures m + 3 < |lines| ==>
              var rc := ReadCharacteristic(CharacteristicTokens(lines, m), dec);
              var sp := ScanPayload(lines, m + 4 + AxisLinesToSkip, dec);
              && (rc.Err? ==> r == Err(rc.error))
              && (rc.Ok? && sp.Err? ==> r == Err(sp.error))
              && (rc.Ok? && sp.Ok? && rc.value.numPoints <= 0 ==> r == Err(NoPoints))
              && (r.Ok? <==> rc.Ok? && sp.Ok? && rc.value.numPoints >= 1)
    ensures r.Ok? ==>
              && m + 3 < |lines|
              && ReadCharacteristic(CharacteristicTokens(lines, m), dec).Ok?
              && var ch := ReadCharacteristic(CharacteristicTokens(lines, m), dec).value;
                 && ch.numPoints >= 1
                 && r.value.numPoints == ch.numPoints
                 && r.value.dataType == ch.dataType
                 && r.value.x == FrequencyAxis(r.value.numPoints, ch.spacingType, ch.xMin, ch.xIncrementOrMax)
    ensures r.Ok? ==> |r.value.x| == r.value.numPoints && |r.value.data| == r.value.numPoints
    ensures r.Ok? ==> ScanPayload(lines, m + 4 + AxisLinesToSkip, dec) == Ok(r.value.payloadStart)
    ensures r.Ok? ==>
              var rec := r.value;
              var rows := PayloadLines(lines, dec);
              && rec.payloadStart <= rec.payloadEnd <= |lines|
              && var vs := Harvest(rows, rec.payloadStart, rec.payloadEnd);
                 && |vs| == rec.valuesCollected
                 && (forall k :: 0 <= k < rec.numPoints ==> rec.data[k] == (ValueAt(vs, 2 * k), ValueAt(vs, 2 * k + 1)))
                 && (forall j :: rec.payloadStart <= j < rec.payloadEnd ==>
                       TakenIn(rows, rec.payloadStart, j, 2 * rec.numPoints, 3 * rec.numPoints))
                 && StoppedFor(rows, rec.payloadStart,
                               Collected(vs, rec.payloadEnd, rec.stop), 2 * rec.numPoints, 3 * rec.numPoints)
  {
    if m + 3 >= |lines| then Err(MissingHeaderLine)
    else
      var ch :- ReadCharacteristic(CharacteristicTokens(lines, m), dec);
      var p :- ScanPayload(lines, m + 4 + AxisLinesToSkip, dec);
      var c := Collect(lines, dec, p, ch.numPoints);
      if ch.numPoints <= 0 then Err(NoPoints)
      else
        var n := ch.numPoints as nat;
        Ok(Record(ch.dataType, n, FrequencyAxis(n, ch.spacingType, ch.xMin, ch.xIncrementOrMax),
                  Shape(c.values, n), p, c.next, |c.values|, c.stop))
  }

  /** The reader's result at marker `m` once each stage's outcome is known. */
  lemma ParseAtStages(lines: seq<string>, m: nat, dec: Decoders, ch: Characteristic, p: nat)
    requires m + 3 < |lines| && ch.numPoints >= 1
    requires ReadCharacteristic(CharacteristicTokens(lines, m), dec) == Ok(ch)
    requires ScanPayload(lines, m + 4 + AxisLinesToSkip, dec) == Ok(p)
    ensures var n := ch.numPoints as nat;
            var c := Collect(lines, dec, p, n);
            ParseAt(lines, m, dec)
            == Ok(Record(ch.dataType, n, FrequencyAxis(n, ch.spacingType, ch.xMin, ch.xIncrementOrMax),
                         Shape(c.values, n), p, c.next, |c.values|, c.stop))
  {
  }

  /** Two markers that each have no marker before them are the same marker. */
  lemma FirstMarkerUnique(lines: seq<string>, m: int, m': int)
    requires MarkerAt(lines, m) && forall j :: 0 <= j < m ==> !MarkerAt(lines, j)
    requires MarkerAt(lines, m') && forall j :: 0 <= j < m' ==> !MarkerAt(lines, j)
    ensures m == m'
  {
  }

  /**
   * The reader: it fails with `NoDataset58` exactly when no marker exists, and
   * otherwise reads the dataset at the first marker.
   */
  function Parse(lines: seq<string>, dec: Decoders): (r: Result<Record, ParseError>)
    ensures r == Err(NoDataset58) <==> forall m :: 0 <= m < |lines| ==> !MarkerAt(lines, m)
    ensures forall m :: MarkerAt(lines, m) && (forall j :: 0 <= j < m ==> !MarkerAt(lines, j)) ==>
              r == ParseAt(lines, m, dec)
  {
    match FindMarker(lines, 0)
    case None => Err(NoDataset58)
    case Some(m) =>
      assert forall m' :: MarkerAt(lines, m') && (forall j :: 0 <= j < m' ==> !MarkerAt(lines, j)) ==> m' == m by {
        forall m' | MarkerAt(lines, m') && (forall j :: 0 <= j < m' ==> !MarkerAt(lines, j))
          ensures m' == m
        {
          FirstMarkerUnique(lines, m, m');
        }
      }
      ParseAt(lines, m, dec)
  }
}
