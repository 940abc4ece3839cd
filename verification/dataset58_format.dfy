/**
 * A writer for the simplified dataset-58 layout the reader expects, and the
 * round trip: what the writer produces, the reader returns unchanged.
 *
 * Number formatting is a parameter (`Formatter`). The round trip holds for a
 * record and a formatter when the record has at least one point, every number
 * written for it is a single token that the reader's decoders map back to it,
 * and the first point line carries an exponent (`e` or `E`). The reader needs
 * the exponent there and nowhere else: its payload search takes the first line
 * after the axis lines that has one (`PointLineStarts`). A writer with finitely
 * many digits meets this on the values it can print exactly; `ExampleFaithful`
 * gives one such record.
 */
module Dataset58Format {
  import opened Results
  import opened Text
  import opened UniversalFile
  import opened Dataset58

  /** The content of a function record: header values and N rows of two reals. */
  datatype Frf = Frf(
    dataType: int, spacingType: int, xMin: real, xIncrementOrMax: real, points: seq<(real, real)>)

  datatype Formatter = Formatter(showInt: int -> string, showReal: real -> string)

  predicate HasExponent(w: string) {
    'E' in w || 'e' in w
  }

  /** `i` is printed as one token that `int()` reads back as `i`. */
  predicate IntShown(fmt: Formatter, dec: Decoders, i: int) {
    IsWord(fmt.showInt(i)) && dec.toInt(fmt.showInt(i)) == Some(i)
  }

  /** `v` is printed as one token that `float()` reads back as `v`. */
  predicate RealShown(fmt: Formatter, dec: Decoders, v: real) {
    IsWord(fmt.showReal(v)) && dec.toReal(fmt.showReal(v)) == Some(v)
  }

  /** One of the two numbers of a point line is printed with an exponent. */
  predicate PointMarked(p: (real, real), fmt: Formatter) {
    HasExponent(fmt.showReal(p.0)) || HasExponent(fmt.showReal(p.1))
  }

  /** The six numbers of the characteristic line read back as themselves. */
  predicate HeaderShown(f: Frf, fmt: Formatter, dec: Decoders) {
    && IntShown(fmt, dec, f.dataType) && IntShown(fmt, dec, |f.points|) && IntShown(fmt, dec, f.spacingType)
    && RealShown(fmt, dec, f.xMin) && RealShown(fmt, dec, f.xIncrementOrMax) && RealShown(fmt, dec, 0.0)
  }

  /** Both values of every point read back as themselves. */
  predicate PointsShown(f: Frf, fmt: Formatter, dec: Decoders) {
    forall k :: 0 <= k < |f.points| ==> RealShown(fmt, dec, f.points[k].0) && RealShown(fmt, dec, f.points[k].1)
  }

  /**
   * Every number the writer prints for `f` reads back as itself, and the first
   * point line carries an exponent.
   */
  predicate Faithful(f: Frf, fmt: Formatter, dec: Decoders) {
    && HeaderShown(f, fmt, dec) && PointsShown(f, fmt, dec)
    && (|f.points| > 0 ==> PointMarked(f.points[0], fmt))
  }

  const HeaderText: string := "NONE"
  const AxisText: string := "0"

  /** The six numbers of the characteristic line: data type, N, spacing type, start, increment or end, and 0. */
  function HeaderWords(f: Frf, fmt: Formatter): seq<string> {
    [fmt.showInt(f.dataType), fmt.showInt(|f.points|), fmt.showInt(f.spacingType),
     fmt.showReal(f.xMin), fmt.showReal(f.xIncrementOrMax), fmt.showReal(0.0)]
  }

  function CharacteristicLine(f: Frf, fmt: Formatter): string {
    Unwords(HeaderWords(f, fmt))
  }

  function PointLine(p: (real, real), fmt: Formatter): string {
    Unwords([fmt.showReal(p.0), fmt.showReal(p.1)])
  }

  /** Marker, header, characteristic line, four axis lines, one line per point, closing "-1". */
  function Encode(f: Frf, fmt: Formatter): (lines: seq<string>)
    ensures |lines| == 9 + |f.points|
    ensures forall k :: 0 <= k < |f.points| ==> lines[8 + k] == PointLine(f.points[k], fmt)
  {
    [Sentinel, FunctionDataset, HeaderText, CharacteristicLine(f, fmt), AxisText, AxisText, AxisText, AxisText]
    + seq(|f.points|, k requires 0 <= k < |f.points| => PointLine(f.points[k], fmt))
    + [Sentinel]
  }

  /** The values of the first `|pts|` rows, row by row. */
  function Flat(pts: seq<(real, real)>): (vs: seq<real>)
    ensures |vs| == 2 * |pts|
    ensures forall k :: 0 <= k < |pts| ==> vs[2 * k] == pts[k].0 && vs[2 * k + 1] == pts[k].1
  {
    if |pts| == 0 then []
    else
      var init := pts[..|pts| - 1];
      var rest := Flat(init);
      assert forall k :: 0 <= k < |init| ==> pts[k] == init[k];
      rest + [pts[|pts| - 1].0, pts[|pts| - 1].1]
  }

  lemma EncodedMarker(f: Frf, fmt: Formatter)
    ensures MarkerAt(Encode(f, fmt), 0)
  {
    var lines := Encode(f, fmt);
    assert lines[0] == Sentinel && lines[1] == FunctionDataset;
    StripUntrimmed(Sentinel);
    StripUntrimmed(FunctionDataset);
  }

  /** The lines of a written record that the reader looks at before the payload. */
  lemma EncodedLines(f: Frf, fmt: Formatter)
    ensures |Encode(f, fmt)| > 3
    ensures Encode(f, fmt)[0] == Sentinel && Encode(f, fmt)[1] == FunctionDataset
    ensures Encode(f, fmt)[3] == CharacteristicLine(f, fmt)
  {
  }

  lemma HeaderWordsAreWords(f: Frf, fmt: Formatter, dec: Decoders)
    requires HeaderShown(f, fmt, dec)
    ensures forall k :: 0 <= k < |HeaderWords(f, fmt)| ==> IsWord(HeaderWords(f, fmt)[k])
  {
  }

  /** The written characteristic line splits into the six printed numbers. */
  lemma EncodedHeaderWords(f: Frf, fmt: Formatter, dec: Decoders)
    requires HeaderShown(f, fmt, dec)
    ensures CharacteristicTokens(Encode(f, fmt), 0) == HeaderWords(f, fmt)
  {
    HeaderWordsAreWords(f, fmt, dec);
    SplitUnwords(HeaderWords(f, fmt));
    EncodedLines(f, fmt);
  }

  /** The six printed numbers decode to the record's header values. */
  lemma ReadHeaderWords(f: Frf, fmt: Formatter, dec: Decoders)
    requires HeaderShown(f, fmt, dec)
    ensures ReadCharacteristic(HeaderWords(f, fmt), dec)
            == Ok(Characteristic(f.dataType, |f.points|, f.spacingType, f.xMin, f.xIncrementOrMax))
  {
    var ws := HeaderWords(f, fmt);
    assert dec.toInt(ws[0]) == Some(f.dataType) && dec.toInt(ws[1]) == Some(|f.points|);
    assert dec.toInt(ws[2]) == Some(f.spacingType);
    assert dec.toReal(ws[3]) == Some(f.xMin) && dec.toReal(ws[4]) == Some(f.xIncrementOrMax);
  }

  lemma EncodedCharacteristic(f: Frf, fmt: Formatter, dec: Decoders)
    requires HeaderShown(f, fmt, dec)
    ensures ReadCharacteristic(CharacteristicTokens(Encode(f, fmt), 0), dec)
            == Ok(Characteristic(f.dataType, |f.points|, f.spacingType, f.xMin, f.xIncrementOrMax))
  {
    EncodedHeaderWords(f, fmt, dec);
    ReadHeaderWords(f, fmt, dec);
  }

  /** A point line strips to itself and splits into the point's two printed numbers. */
  lemma PointLineTokens(p: (real, real), fmt: Formatter, dec: Decoders)
    requires RealShown(fmt, dec, p.0) && RealShown(fmt, dec, p.1)
    ensures Strip(PointLine(p, fmt)) == PointLine(p, fmt) == fmt.showReal(p.0) + " " + fmt.showReal(p.1)
    ensures Split(PointLine(p, fmt)) == [fmt.showReal(p.0), fmt.showReal(p.1)]
  {
    var ws := [fmt.showReal(p.0), fmt.showReal(p.1)];
    StripUnwords(ws);
    SplitUnwords(ws);
  }

  /** A point line is a value line holding exactly the point's two values. */
  lemma PointLineRead(p: (real, real), fmt: Formatter, dec: Decoders)
    requires RealShown(fmt, dec, p.0) && RealShown(fmt, dec, p.1)
    ensures Classify(PointLine(p, fmt), dec) == ValueLine([p.0, p.1])
  {
    var line := PointLine(p, fmt);
    PointLineTokens(p, fmt, dec);
    ParseAllNumbers([fmt.showReal(p.0), fmt.showReal(p.1)], [p.0, p.1], dec);
    assert line != Sentinel by {
      assert |line| >= 3;
    }
  }

  /**
   * The payload search accepts a point line exactly when one of its two
   * numbers is printed with an exponent.
   */
  lemma PointLineStarts(p: (real, real), fmt: Formatter, dec: Decoders)
    requires RealShown(fmt, dec, p.0) && RealShown(fmt, dec, p.1)
    ensures IsPayloadStart(PointLine(p, fmt), dec) <==> PointMarked(p, fmt)
  {
    PointLineTokens(p, fmt, dec);
    ExponentInJoin(fmt.showReal(p.0), fmt.showReal(p.1));
  }

  /** Two numbers joined by a blank show an exponent exactly when one of them does. */
  lemma ExponentInJoin(a: string, b: string)
    ensures HasExponent(a + " " + b) <==> HasExponent(a) || HasExponent(b)
  {
    assert a + " " + b == a + (" " + b);
  }

  /** From row `s` on, the rows hold the points, each as a line of its two values. */
  predicate PointRows(rows: seq<PayloadLine>, s: nat, pts: seq<(real, real)>) {
    s + |pts| <= |rows| && forall k :: 0 <= k < |pts| ==> rows[s + k] == ValueLine([pts[k].0, pts[k].1])
  }

  /** Flattening one more row appends its two values. */
  lemma FlatSnoc(pts: seq<(real, real)>, j: nat)
    requires 0 < j <= |pts|
    ensures Flat(pts[..j]) == Flat(pts[..j - 1]) + [pts[j - 1].0, pts[j - 1].1]
  {
    assert pts[..j][..j - 1] == pts[..j - 1];
  }

  /** The collection loop takes every point line and stops with exactly 2N values. */
  lemma {:induction false} CollectPoints(rows: seq<PayloadLine>, s: nat, pts: seq<(real, real)>, j: nat)
    requires PointRows(rows, s, pts) && j <= |pts|
    requires forall t :: s <= t < s + j ==> TakenIn(rows, s, t, 2 * |pts|, 3 * |pts|)
    requires Harvest(rows, s, s + j) == Flat(pts[..j]) && NonBlank(rows, s, s + j) == j
    ensures Accumulate(rows, s, s + j, 2 * |pts|, 3 * |pts|, Flat(pts[..j]), j)
            == Collected(Flat(pts), s + |pts|, Filled)
    decreases |pts| - j
  {
    if j == |pts| {
      assert pts[..j] == pts;
    } else {
      var p := pts[j];
      AccumulateTakes(rows, s, s + j, 2 * |pts|, 3 * |pts|, Flat(pts[..j]), j, [p.0, p.1]);
      FlatSnoc(pts, j + 1);
      CollectPoints(rows, s, pts, j + 1);
    }
  }

  /** Shaping the flattened rows gives the rows back. */
  lemma ShapeOfFlat(pts: seq<(real, real)>)
    ensures Shape(Flat(pts), |pts|) == pts
  {
    var vs := Flat(pts);
    var rows := Shape(vs, |pts|);
    forall k | 0 <= k < |pts|
      ensures rows[k] == pts[k]
    {
      assert 2 * k + 1 < |vs|;
      assert ValueAt(vs, 2 * k) == pts[k].0 && ValueAt(vs, 2 * k + 1) == pts[k].1;
    }
  }

  /** The payload search finds the first point line, right after the axis lines. */
  lemma EncodedPayloadStart(f: Frf, fmt: Formatter, dec: Decoders)
    requires PointsShown(f, fmt, dec) && |f.points| > 0 && PointMarked(f.points[0], fmt)
    ensures ScanPayload(Encode(f, fmt), 8, dec) == Ok(8)
  {
    PointLineStarts(f.points[0], fmt, dec);
  }

  /** The payload lines of a written record are its points, each as a line of two values. */
  lemma EncodedRows(f: Frf, fmt: Formatter, dec: Decoders)
    requires PointsShown(f, fmt, dec)
    ensures |PayloadLines(Encode(f, fmt), dec)| == 9 + |f.points|
    ensures PointRows(PayloadLines(Encode(f, fmt), dec), 8, f.points)
  {
    forall k | 0 <= k < |f.points|
      ensures PayloadLines(Encode(f, fmt), dec)[8 + k] == ValueLine([f.points[k].0, f.points[k].1])
    {
      PointLineRead(f.points[k], fmt, dec);
    }
  }

  /** The collection takes the N point lines and stops with their 2N values. */
  lemma EncodedCollect(f: Frf, fmt: Formatter, dec: Decoders)
    requires PointsShown(f, fmt, dec)
    ensures var n := |f.points|;
            Collect(Encode(f, fmt), dec, 8, n) == Collected(Flat(f.points), 8 + n, Filled)
  {
    EncodedRows(f, fmt, dec);
    CollectLines(Encode(f, fmt), dec, 8, f.points);
  }

  /** Lines reading as the points from line `s` on are collected whole, with 2N values. */
  lemma CollectLines(lines: seq<string>, dec: Decoders, s: nat, pts: seq<(real, real)>)
    requires PointRows(PayloadLines(lines, dec), s, pts)
    ensures Collect(lines, dec, s, |pts|) == Collected(Flat(pts), s + |pts|, Filled)
  {
    CollectRows(PayloadLines(lines, dec), s, pts);
  }

  /** Rows holding the points from line `s` on are collected whole, with 2N values. */
  lemma CollectRows(rows: seq<PayloadLine>, s: nat, pts: seq<(real, real)>)
    requires PointRows(rows, s, pts)
    ensures Accumulate(rows, s, s, 2 * |pts|, 3 * |pts|, [], 0) == Collected(Flat(pts), s + |pts|, Filled)
  {
    assert Flat(pts[..0]) == [] by { assert pts[..0] == []; }
    assert Harvest(rows, s, s) == [] && NonBlank(rows, s, s) == 0;
    CollectPoints(rows, s, pts, 0);
  }

  /** The reader returns the written record: header values, axis and every row exactly. */
  lemma ParseEncoded(f: Frf, fmt: Formatter, dec: Decoders)
    requires Faithful(f, fmt, dec) && |f.points| > 0
    ensures var n := |f.points|;
            Parse(Encode(f, fmt), dec)
            == Ok(Record(f.dataType, n, FrequencyAxis(n, f.spacingType, f.xMin, f.xIncrementOrMax), f.points,
                         8, 8 + n, 2 * n, Filled))
  {
    var lines := Encode(f, fmt);
    var ch := Characteristic(f.dataType, |f.points|, f.spacingType, f.xMin, f.xIncrementOrMax);
    EncodedMarker(f, fmt);
    assert Parse(lines, dec) == ParseAt(lines, 0, dec);
    EncodedCharacteristic(f, fmt, dec);
    EncodedPayloadStart(f, fmt, dec);
    EncodedCollect(f, fmt, dec);
    ShapeOfFlat(f.points);
    ParseAtStages(lines, 0, dec, ch, 8);
  }

  /**
   * Without an exponent on the first point line the payload search passes
   * over it: a successful read starts its payload later, so the first
   * written row is not read from its own line.
   */
  lemma UnmarkedFirstPointSkipped(f: Frf, fmt: Formatter, dec: Decoders)
    requires PointsShown(f, fmt, dec) && |f.points| > 0 && !PointMarked(f.points[0], fmt)
    ensures var r := Parse(Encode(f, fmt), dec);
            r.Ok? ==> r.value.payloadStart > 8
  {
    var lines := Encode(f, fmt);
    EncodedMarker(f, fmt);
    assert Parse(lines, dec) == ParseAt(lines, 0, dec);
    PointLineStarts(f.points[0], fmt, dec);
    assert !IsPayloadStart(lines[8], dec);
  }

  /**
   * With spacing type 0 and axis start 0 the axis is `k * step`, and the
   * response is the written rows.
   */
  lemma StepHeaderRoundTrip(pts: seq<(real, real)>, step: real, fmt: Formatter, dec: Decoders)
    requires Faithful(Frf(2, 0, 0.0, step, pts), fmt, dec) && |pts| > 0
    ensures var r := Parse(Encode(Frf(2, 0, 0.0, step, pts), fmt), dec);
            && r.Ok? && r.value.data == pts && r.value.dataType == 2
            && forall k :: 0 <= k < |pts| ==> r.value.x[k] == (k as real) * step
  {
    ParseEncoded(Frf(2, 0, 0.0, step, pts), fmt, dec);
    var x := FrequencyAxis(|pts|, 0, 0.0, step);
    forall k | 0 <= k < |pts|
      ensures x[k] == (k as real) * step
    {
      ArithmeticProgression(x, 0.0, step, k);
    }
  }

  /** A writer that knows the five numbers of `ExampleRecord`. */
  function ExampleFormatter(): Formatter {
    Formatter(
      i => if i == 0 then "0" else if i == 1 then "1" else "2",
      v => if v == 0.0 then "0E0" else if v == 1.0 then "1E0" else "5E-1")
  }

  /** Readers that accept exactly the tokens `ExampleFormatter` prints. */
  function ExampleDecoders(): Decoders {
    Decoders(
      w => if w == "0" then Some(0) else if w == "1" then Some(1) else if w == "2" then Some(2) else None,
      w => if w == "0E0" then Some(0.0) else if w == "1E0" then Some(1.0) else if w == "5E-1" then Some(0.5) else None)
  }

  /** One point (1.0, 0.0) on an axis starting at 0 with step 0.5. */
  function ExampleRecord(): Frf {
    Frf(2, 0, 0.0, 0.5, [(1.0, 0.0)])
  }

  lemma ExampleTokensAreWords()
    ensures IsWord("0") && IsWord("1") && IsWord("2")
    ensures IsWord("0E0") && IsWord("1E0") && IsWord("5E-1")
  {
  }

  /**
   * The round trip's premise can be met: the example writer prints every
   * number of `ExampleRecord` so that the example decoders read it back.
   */
  lemma ExampleFaithful()
    ensures Faithful(ExampleRecord(), ExampleFormatter(), ExampleDecoders())
  {
    var f := ExampleRecord();
    var fmt := ExampleFormatter();
    var dec := ExampleDecoders();
    ExampleTokensAreWords();
    assert fmt.showInt(2) == "2" && fmt.showInt(1) == "1" && fmt.showInt(0) == "0";
    assert fmt.showReal(0.0) == "0E0" && fmt.showReal(1.0) == "1E0" && fmt.showReal(0.5) == "5E-1";
    assert dec.toReal("5E-1") == Some(0.5);
    assert f.points[0] == (1.0, 0.0);
  }

}
