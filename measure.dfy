/** The measurement loop of run (Freddy_allslices.py:130-164) and the slice loop around it
    (Freddy_allslices.py:93-95, 110-125). Every candidate region goes into the overlay; the
    ones whose calibrated area lies in [minA, maxA] each add one row to the results table,
    holding the shape columns and four intensity columns per channel. */
module Measure {
  import opened Wrappers
  import opened Driver

  /** The area band, in calibrated units (Freddy_allslices.py:16-17). */
  const MinArea: real := 8.0
  const MaxArea: real := 300.0

  /** A results-table cell: the image title is text, everything else a number. */
  datatype Cell = Text(s: string) | Number(x: real)

  /** One row of the results table, by column heading. */
  type Row = map<string, Cell>

  datatype Calibration = Calibration(pixelWidth: real, pixelHeight: real)

  /** A candidate region as the measurements see it: its pixel area, bounding rectangle,
      perimeter, and maximum and minimum Feret diameters, all in pixels. */
  datatype Shape = Shape(area: real, rx: int, ry: int, rw: int, rh: int,
                         perimeter: real, maxFeret: real, minFeret: real)

  /** A region traced from a mask covers at least one pixel, so its perimeter and its maximum
      Feret diameter are positive and the script's divisions by them are defined. */
  type Roi = s: Shape | s.perimeter > 0.0 && s.maxFeret > 0.0
    witness Shape(1.0, 0, 0, 1, 1, 4.0, 1.0, 1.0)

  /** Python's maths.pi. */
  const Pi: real := 3.141592653589793

  /** feret[2] / feret[0] (Freddy_allslices.py:151): minimum over maximum Feret diameter. */
  function FeretRatio(roi: Roi): real
  {
    roi.minFeret / roi.maxFeret
  }

  /** circ (Freddy_allslices.py:143): 4 pi area / perimeter², from the values in pixels. */
  function Circularity(roi: Roi): real
  {
    4.0 * Pi * (roi.area / (roi.perimeter * roi.perimeter))
  }

  /** Intensity statistics of one channel inside a region. */
  datatype Stats = Stats(mean: real, min: real, max: real, stdDev: real)

  /** An overlay entry: an accepted region placed on its slice, or a rejected one drawn red. */
  datatype Marked = Accepted(roi: Roi, z: int) | Rejected(roi: Roi)

  // ---------------------------------------------------------------------------------------
  // Column headings

  predicate IsDigit(ch: char)
  {
    '0' <= ch <= '9'
  }

  predicate AllDigits(s: string)
  {
    forall k :: 0 <= k < |s| ==> IsDigit(s[k])
  }

  function Digit(d: nat): (ch: char)
    requires d < 10
    ensures IsDigit(ch) && ch as int - '0' as int == d
  {
    ('0' as int + d) as char
  }

  /** Python's str on a natural number: its decimal digits, most significant first. */
  function NatToString(n: nat): (s: string)
    ensures |s| >= 1 && AllDigits(s)
    decreases n
  {
    if n < 10 then [Digit(n)] else NatToString(n / 10) + [Digit(n % 10)]
  }

  /** The number a string of decimal digits denotes. */
  function DecimalValue(s: string): nat
    requires AllDigits(s)
  {
    if s == [] then 0 else 10 * DecimalValue(s[..|s| - 1]) + (s[|s| - 1] as int - '0' as int)
  }

  /** Reading back the digits str writes gives the number again. */
  lemma {:induction false} DecimalRoundTrip(n: nat)
    ensures DecimalValue(NatToString(n)) == n
    decreases n
  {
    if n >= 10 {
      var s := NatToString(n);
      assert s[..|s| - 1] == NatToString(n / 10);
      DecimalRoundTrip(n / 10);
    }
  }

  lemma NatToStringInjective(a: nat, b: nat)
    ensures NatToString(a) == NatToString(b) <==> a == b
  {
    DecimalRoundTrip(a);
    DecimalRoundTrip(b);
  }

  /** The statistics measured per channel, in the order they are written. */
  const StatNames: seq<string> := ["Mean", "Min", "Max", "StdDev"]

  /** The shape columns, in the order they are written. */
  const FixedColumns: seq<string> :=
    ["Image", "X", "Y", "Z", "Area", "Max Feret", "Min Feret", "Feret Ratio", "Circularity"]

  /** "C" + str(c) + stat. */
  function ColumnKey(c: nat, stat: string): string
  {
    "C" + NatToString(c) + stat
  }

  lemma StatNamesStartWithLetter(s: string)
    requires s in StatNames
    ensures |s| > 0 && !IsDigit(s[0])
  {
  }

  /** Inside a channel heading the digits of the channel run from position 1 up to the first
      letter of the statistic. */
  lemma DigitRun(c: nat, s: string, j: nat)
    requires s in StatNames && j <= |NatToString(c)|
    ensures IsDigit(ColumnKey(c, s)[1 + j]) <==> j < |NatToString(c)|
  {
    StatNamesStartWithLetter(s);
  }

  /** Two channel columns have the same heading only when channel and statistic agree. */
  lemma ColumnKeyInjective(c1: nat, s1: string, c2: nat, s2: string)
    requires s1 in StatNames && s2 in StatNames
    ensures ColumnKey(c1, s1) == ColumnKey(c2, s2) <==> c1 == c2 && s1 == s2
  {
    var d1, d2 := NatToString(c1), NatToString(c2);
    var k1, k2 := ColumnKey(c1, s1), ColumnKey(c2, s2);
    if k1 == k2 {
      StatNamesStartWithLetter(s1);
      StatNamesStartWithLetter(s2);
      var m := if |d1| < |d2| then |d1| else |d2|;
      DigitRun(c1, s1, m);
      DigitRun(c2, s2, m);
      assert d1 == k1[1..1 + |d1|] && d2 == k2[1..1 + |d2|];
      assert s1 == k1[1 + |d1|..] && s2 == k2[1 + |d2|..];
      NatToStringInjective(c1, c2);
    }
  }

  /** A channel column never takes the heading of a shape column. */
  lemma ColumnKeyNotFixed(c: nat, s: string)
    requires s in StatNames
    ensures ColumnKey(c, s) !in FixedColumns
  {
    var k := ColumnKey(c, s);
    assert k[0] == 'C' && IsDigit(k[1]);
  }

  /** The four headings of channel c. */
  function StatKeys(c: nat): set<string>
  {
    {ColumnKey(c, "Mean"), ColumnKey(c, "Min"), ColumnKey(c, "Max"), ColumnKey(c, "StdDev")}
  }

  /** The headings of the channel columns of channels 1..n. */
  function ChannelKeys(n: nat): set<string>
  {
    if n == 0 then {} else ChannelKeys(n - 1) + StatKeys(n)
  }

  /** ChannelKeys(n) holds "C" + str(c) + stat for every channel 1..n and every statistic,
      and nothing else. */
  lemma {:induction false} ChannelKeysExact(n: nat, key: string)
    ensures key in ChannelKeys(n) <==>
            exists c: nat, s :: 1 <= c <= n && s in StatNames && key == ColumnKey(c, s)
  {
    if n > 0 {
      ChannelKeysExact(n - 1, key);
      if key in StatKeys(n) {
        var s :| s in StatNames && key == ColumnKey(n, s);
      } else if key !in ChannelKeys(n - 1) {
        forall c: nat, s | 1 <= c <= n && s in StatNames ensures key != ColumnKey(c, s) {
          if c == n {
            assert s == "Mean" || s == "Min" || s == "Max" || s == "StdDev";
          }
        }
      }
    }
  }

  /** No channel heading of channel c is a heading of another channel. */
  lemma OtherChannel(c: nat, n: nat)
    requires c != n
    ensures ColumnKey(c, "Mean") !in StatKeys(n) && ColumnKey(c, "Min") !in StatKeys(n)
    ensures ColumnKey(c, "Max") !in StatKeys(n) && ColumnKey(c, "StdDev") !in StatKeys(n)
  {
    forall s1, s2 | s1 in StatNames && s2 in StatNames
      ensures ColumnKey(c, s1) != ColumnKey(n, s2)
    {
      ColumnKeyInjective(c, s1, n, s2);
    }
  }

  /** The four headings of one channel are distinct. */
  lemma SameChannel(n: nat)
    ensures |StatKeys(n)| == 4
  {
    ColumnKeyInjective(n, "Mean", n, "Min");
    ColumnKeyInjective(n, "Mean", n, "Max");
    ColumnKeyInjective(n, "Mean", n, "StdDev");
    ColumnKeyInjective(n, "Min", n, "Max");
    ColumnKeyInjective(n, "Min", n, "StdDev");
    ColumnKeyInjective(n, "Max", n, "StdDev");
  }

  /** No shape column heading is a channel heading. */
  lemma {:induction false} FixedNotChannelKey(n: nat, key: string)
    requires key in FixedColumns
    ensures key !in ChannelKeys(n)
  {
    if n > 0 {
      FixedNotChannelKey(n - 1, key);
      ColumnKeyNotFixed(n, "Mean");
      ColumnKeyNotFixed(n, "Min");
      ColumnKeyNotFixed(n, "Max");
      ColumnKeyNotFixed(n, "StdDev");
    }
  }

  // ---------------------------------------------------------------------------------------
  // The row of one accepted region

  /** The first shape columns of a row (Freddy_allslices.py:144-147): the image, the centre of
      the bounding rectangle in pixels and the slice. */
  function PositionRow(title: string, z: int, roi: Roi): Row
  {
    map["Image" := Text(title)]
      ["X" := Number(roi.rx as real + roi.rw as real / 2.0)]
      ["Y" := Number(roi.ry as real + roi.rh as real / 2.0)]
      ["Z" := Number(z as real)]
  }

  /** row with the measurement columns added (Freddy_allslices.py:148-152): the area and the
      Feret diameters are converted from pixels with the calibration, the Feret ratio and the
      circularity are computed from the values in pixels. */
  function WithMeasures(row: Row, cal: Calibration, roi: Roi): Row
  {
    row
      ["Area" := Number(roi.area * cal.pixelWidth * cal.pixelHeight)]
      ["Max Feret" := Number(roi.maxFeret * cal.pixelWidth)]
      ["Min Feret" := Number(roi.minFeret * cal.pixelWidth)]
      ["Feret Ratio" := Number(FeretRatio(roi))]
      ["Circularity" := Number(Circularity(roi))]
  }

  /** The shape columns of a row (Freddy_allslices.py:144-152). */
  function ShapeRow(title: string, z: int, cal: Calibration, roi: Roi): Row
  {
    WithMeasures(PositionRow(title, z, roi), cal, roi)
  }

  /** row with the four columns of channels 1..n added, channel by channel. */
  function ChannelColumns(row: Row, n: nat, z: int, roi: Roi, stats: (int, int, Roi) -> Stats): Row
  {
    if n == 0 then row
    else
      var st := stats(n, z, roi);
      ChannelColumns(row, n - 1, z, roi, stats)
        [ColumnKey(n, "Mean") := Number(st.mean)]
        [ColumnKey(n, "Min") := Number(st.min)]
        [ColumnKey(n, "Max") := Number(st.max)]
        [ColumnKey(n, "StdDev") := Number(st.stdDev)]
  }

  /** The row an accepted region adds (Freddy_allslices.py:144-161); stats(c, z, roi) are the
      statistics of channel c of slice z inside roi. */
  function RowOf(title: string, z: int, cal: Calibration, nChannels: nat, roi: Roi,
                 stats: (int, int, Roi) -> Stats): Row
  {
    ChannelColumns(ShapeRow(title, z, cal, roi), nChannels, z, roi, stats)
  }

  lemma {:induction false} ChannelColumnsKeys(row: Row, n: nat, z: int, roi: Roi,
                                              stats: (int, int, Roi) -> Stats)
    ensures ChannelColumns(row, n, z, roi, stats).Keys == row.Keys + ChannelKeys(n)
  {
    if n > 0 {
      ChannelColumnsKeys(row, n - 1, z, roi, stats);
    }
  }

  lemma {:induction false} ChannelColumnsKeep(row: Row, n: nat, z: int, roi: Roi,
                                              stats: (int, int, Roi) -> Stats, key: string)
    requires key in row && key !in ChannelKeys(n)
    ensures key in ChannelColumns(row, n, z, roi, stats)
    ensures ChannelColumns(row, n, z, roi, stats)[key] == row[key]
  {
    if n > 0 {
      ChannelColumnsKeep(row, n - 1, z, roi, stats, key);
    }
  }

  lemma {:induction false} ChannelColumnsValues(row: Row, n: nat, z: int, roi: Roi,
                                                stats: (int, int, Roi) -> Stats, c: nat)
    requires 1 <= c <= n
    ensures var r := ChannelColumns(row, n, z, roi, stats);
      && ColumnKey(c, "Mean") in r && r[ColumnKey(c, "Mean")] == Number(stats(c, z, roi).mean)
      && ColumnKey(c, "Min") in r && r[ColumnKey(c, "Min")] == Number(stats(c, z, roi).min)
      && ColumnKey(c, "Max") in r && r[ColumnKey(c, "Max")] == Number(stats(c, z, roi).max)
      && ColumnKey(c, "StdDev") in r && r[ColumnKey(c, "StdDev")] == Number(stats(c, z, roi).stdDev)
  {
    if c < n {
      ChannelColumnsValues(row, n - 1, z, roi, stats, c);
      OtherChannel(c, n);
    } else {
      LastChannelValues(row, n, z, roi, stats);
    }
  }

  lemma LastChannelValues(row: Row, n: nat, z: int, roi: Roi, stats: (int, int, Roi) -> Stats)
    requires 1 <= n
    ensures var r := ChannelColumns(row, n, z, roi, stats);
      && ColumnKey(n, "Mean") in r && r[ColumnKey(n, "Mean")] == Number(stats(n, z, roi).mean)
      && ColumnKey(n, "Min") in r && r[ColumnKey(n, "Min")] == Number(stats(n, z, roi).min)
      && ColumnKey(n, "Max") in r && r[ColumnKey(n, "Max")] == Number(stats(n, z, roi).max)
      && ColumnKey(n, "StdDev") in r && r[ColumnKey(n, "StdDev")] == Number(stats(n, z, roi).stdDev)
  {
    SameChannel(n);
  }

  /** A row holds exactly the shape columns and the four columns of each channel 1..C. */
  lemma RowColumns(title: string, z: int, cal: Calibration, nChannels: nat, roi: Roi,
                   stats: (int, int, Roi) -> Stats)
    ensures RowOf(title, z, cal, nChannels, roi, stats).Keys
            == (set f | f in FixedColumns) + ChannelKeys(nChannels)
  {
    ChannelColumnsKeys(ShapeRow(title, z, cal, roi), nChannels, z, roi, stats);
  }

  /** Channel c's columns of a row hold that channel's statistics inside the region. */
  lemma RowChannelValues(title: string, z: int, cal: Calibration, nChannels: nat, roi: Roi,
                         stats: (int, int, Roi) -> Stats, c: nat)
    requires 1 <= c <= nChannels
    ensures var r := RowOf(title, z, cal, nChannels, roi, stats);
      && ColumnKey(c, "Mean") in r && r[ColumnKey(c, "Mean")] == Number(stats(c, z, roi).mean)
      && ColumnKey(c, "Min") in r && r[ColumnKey(c, "Min")] == Number(stats(c, z, roi).min)
      && ColumnKey(c, "Max") in r && r[ColumnKey(c, "Max")] == Number(stats(c, z, roi).max)
      && ColumnKey(c, "StdDev") in r && r[ColumnKey(c, "StdDev")] == Number(stats(c, z, roi).stdDev)
  {
    ChannelColumnsValues(ShapeRow(title, z, cal, roi), nChannels, z, roi, stats, c);
  }

  /** The values of the shape columns, as written (Freddy_allslices.py:144-152). */
  lemma ShapeRowValues(title: string, z: int, cal: Calibration, roi: Roi)
    ensures var r := ShapeRow(title, z, cal, roi);
      && (forall f :: f in FixedColumns ==> f in r)
      && r["Image"] == Text(title)
      && r["Z"] == Number(z as real)
      && r["Area"] == Number(roi.area * cal.pixelWidth * cal.pixelHeight)
      && r["Max Feret"] == Number(roi.maxFeret * cal.pixelWidth)
      && r["Min Feret"] == Number(roi.minFeret * cal.pixelWidth)
  {
  }

  /** The channel columns never overwrite a shape column. */
  lemma RowKeepsShape(title: string, z: int, cal: Calibration, nChannels: nat, roi: Roi,
                      stats: (int, int, Roi) -> Stats, key: string)
    requires key in FixedColumns
    ensures key in ShapeRow(title, z, cal, roi)
    ensures var r := RowOf(title, z, cal, nChannels, roi, stats);
      key in r && r[key] == ShapeRow(title, z, cal, roi)[key]
  {
    ShapeRowValues(title, z, cal, roi);
    FixedNotChannelKey(nChannels, key);
    ChannelColumnsKeep(ShapeRow(title, z, cal, roi), nChannels, z, roi, stats, key);
  }

  /** The shape columns keep the values written first. */
  lemma RowShapeValues(title: string, z: int, cal: Calibration, nChannels: nat, roi: Roi,
                       stats: (int, int, Roi) -> Stats)
    ensures var r := RowOf(title, z, cal, nChannels, roi, stats);
      && "Image" in r && r["Image"] == Text(title)
      && "Z" in r && r["Z"] == Number(z as real)
      && "Area" in r && r["Area"] == Number(roi.area * cal.pixelWidth * cal.pixelHeight)
      && "Max Feret" in r && r["Max Feret"] == Number(roi.maxFeret * cal.pixelWidth)
      && "Min Feret" in r && r["Min Feret"] == Number(roi.minFeret * cal.pixelWidth)
  {
    ShapeRowValues(title, z, cal, roi);
    RowKeepsShape(title, z, cal, nChannels, roi, stats, "Image");
    RowKeepsShape(title, z, cal, nChannels, roi, stats, "Z");
    RowKeepsShape(title, z, cal, nChannels, roi, stats, "Area");
    RowKeepsShape(title, z, cal, nChannels, roi, stats, "Max Feret");
    RowKeepsShape(title, z, cal, nChannels, roi, stats, "Min Feret");
  }

  /** A common nonzero factor cancels out of a quotient. */
  lemma CancelFactor(x: real, y: real, p: real)
    requires y != 0.0 && p != 0.0
    ensures (x * p) / (y * p) == x / y
  {
    assert (x / y) * (y * p) == x * p;
  }

  /** Multiplying k · (x / p²) back by p² gives k · x. */
  lemma ScaleOverSquare(k: real, x: real, p: real)
    requires p > 0.0
    ensures (k * (x / (p * p))) * (p * p) == k * x
  {
    PositiveSquare(p);
  }

  lemma PositiveSquare(p: real)
    requires p > 0.0
    ensures p * p > 0.0
  {
  }

  /** With a nonzero pixel width the calibration cancels out of the Feret ratio, so a row's
      Feret Ratio column is its Min Feret column over its Max Feret column, and its
      Circularity column times the squared perimeter in pixels is 4 pi times the area in
      pixels. */
  lemma FeretColumnsAgree(title: string, z: int, cal: Calibration, nChannels: nat, roi: Roi,
                          stats: (int, int, Roi) -> Stats)
    requires cal.pixelWidth != 0.0
    ensures var r := RowOf(title, z, cal, nChannels, roi, stats);
      && "Feret Ratio" in r && "Min Feret" in r && "Max Feret" in r && "Circularity" in r
      && r["Min Feret"].Number? && r["Max Feret"].Number? && r["Max Feret"].x != 0.0
      && r["Feret Ratio"] == Number(r["Min Feret"].x / r["Max Feret"].x)
      && r["Circularity"].Number?
      && r["Circularity"].x * (roi.perimeter * roi.perimeter) == 4.0 * Pi * roi.area
  {
    RowShapeValues(title, z, cal, nChannels, roi, stats);
    RowKeepsShape(title, z, cal, nChannels, roi, stats, "Feret Ratio");
    RowKeepsShape(title, z, cal, nChannels, roi, stats, "Circularity");
    CancelFactor(roi.minFeret, roi.maxFeret, cal.pixelWidth);
    ScaleOverSquare(4.0 * Pi, roi.area, roi.perimeter);
  }

  // ---------------------------------------------------------------------------------------
  // The accept/reject loop of one slice

  /** The area filter: the calibrated area lies in [minA, maxA]. */
  predicate Accepts(cal: Calibration, roi: Roi)
  {
    MinArea <= roi.area * cal.pixelWidth * cal.pixelHeight <= MaxArea
  }

  /** The rows the candidates of one slice add, in candidate order. */
  function AcceptedRows(title: string, z: int, cal: Calibration, nChannels: nat, rois: seq<Roi>,
                        stats: (int, int, Roi) -> Stats): seq<Row>
  {
    if rois == [] then []
    else
      var last := rois[|rois| - 1];
      AcceptedRows(title, z, cal, nChannels, rois[..|rois| - 1], stats)
        + (if Accepts(cal, last) then [RowOf(title, z, cal, nChannels, last, stats)] else [])
  }

  /** The overlay entries the candidates of one slice add, in candidate order. */
  function OverlayItems(cal: Calibration, z: int, rois: seq<Roi>): seq<Marked>
  {
    if rois == [] then []
    else
      var last := rois[|rois| - 1];
      OverlayItems(cal, z, rois[..|rois| - 1])
        + [if Accepts(cal, last) then Accepted(last, z) else Rejected(last)]
  }

  /** The positions of the accepted candidates, in increasing order. */
  function AcceptedIndices(cal: Calibration, rois: seq<Roi>): seq<nat>
  {
    if rois == [] then []
    else
      AcceptedIndices(cal, rois[..|rois| - 1])
        + (if Accepts(cal, rois[|rois| - 1]) then [|rois| - 1] else [])
  }

  /** AcceptedIndices lists each accepted candidate exactly once, in increasing order, and
      nothing else. */
  lemma {:induction false} AcceptedIndicesExact(cal: Calibration, rois: seq<Roi>)
    ensures var ix := AcceptedIndices(cal, rois);
      && (forall k :: 0 <= k < |ix| ==> ix[k] < |rois|)
      && (forall k, l :: 0 <= k < l < |ix| ==> ix[k] < ix[l])
      && (forall i :: 0 <= i < |rois| ==> (i in ix <==> Accepts(cal, rois[i])))
  {
    if rois != [] {
      var init := rois[..|rois| - 1];
      AcceptedIndicesExact(cal, init);
      assert forall i :: 0 <= i < |init| ==> init[i] == rois[i];
    }
  }

  /** Row k of a slice is the row of the k-th accepted candidate: one row per accepted
      candidate, in candidate order. */
  lemma {:induction false} AcceptedRowsFollowCandidates(title: string, z: int, cal: Calibration,
                                                        nChannels: nat, rois: seq<Roi>,
                                                        stats: (int, int, Roi) -> Stats)
    ensures var rows, ix := AcceptedRows(title, z, cal, nChannels, rois, stats), AcceptedIndices(cal, rois);
      && |rows| == |ix|
      && forall k :: 0 <= k < |rows| ==>
           ix[k] < |rois| && rows[k] == RowOf(title, z, cal, nChannels, rois[ix[k]], stats)
  {
    if rois != [] {
      var init := rois[..|rois| - 1];
      AcceptedRowsFollowCandidates(title, z, cal, nChannels, init, stats);
      AcceptedIndicesExact(cal, init);
      assert forall i :: 0 <= i < |init| ==> init[i] == rois[i];
    }
  }

  /** The row of an accepted region records its slice and an area inside the band. */
  lemma RowInBand(title: string, z: int, cal: Calibration, nChannels: nat, roi: Roi,
                  stats: (int, int, Roi) -> Stats)
    requires Accepts(cal, roi)
    ensures var r := RowOf(title, z, cal, nChannels, roi, stats);
      && "Z" in r && r["Z"] == Number(z as real)
      && "Area" in r && r["Area"].Number? && MinArea <= r["Area"].x <= MaxArea
  {
    RowShapeValues(title, z, cal, nChannels, roi, stats);
  }

  /** Every row added for a slice records that slice and an area inside the band. */
  lemma AcceptedRowsInBand(title: string, z: int, cal: Calibration, nChannels: nat,
                           rois: seq<Roi>, stats: (int, int, Roi) -> Stats)
    ensures forall r: Row :: r in AcceptedRows(title, z, cal, nChannels, rois, stats) ==>
      && "Z" in r && r["Z"] == Number(z as real)
      && "Area" in r && r["Area"].Number? && MinArea <= r["Area"].x <= MaxArea
  {
    var rows := AcceptedRows(title, z, cal, nChannels, rois, stats);
    var ix := AcceptedIndices(cal, rois);
    AcceptedRowsFollowCandidates(title, z, cal, nChannels, rois, stats);
    AcceptedIndicesExact(cal, rois);
    forall k | 0 <= k < |rows|
      ensures && "Z" in rows[k] && rows[k]["Z"] == Number(z as real)
              && "Area" in rows[k] && rows[k]["Area"].Number? && MinArea <= rows[k]["Area"].x <= MaxArea
    {
      assert ix[k] in ix;
      RowInBand(title, z, cal, nChannels, rois[ix[k]], stats);
    }
  }

  /** The overlay gets one entry per candidate, in candidate order: accepted ones placed on
      the slice, the others marked rejected. */
  lemma {:induction false} OverlayItemsExact(cal: Calibration, z: int, rois: seq<Roi>)
    ensures var items := OverlayItems(cal, z, rois);
      && |items| == |rois|
      && forall k :: 0 <= k < |rois| ==>
           items[k] == if Accepts(cal, rois[k]) then Accepted(rois[k], z) else Rejected(rois[k])
  {
    if rois != [] {
      var init := rois[..|rois| - 1];
      OverlayItemsExact(cal, z, init);
      assert forall i :: 0 <= i < |init| ==> init[i] == rois[i];
    }
  }

  // ---------------------------------------------------------------------------------------
  // The results table and the overlay

  /** ImageJ's ResultsTable, as the script uses it: a growing list of rows. */
  class ResultsTable {
    var rows: seq<Row>

    constructor ()
      ensures rows == []
    {
      rows := [];
    }

    /** The number of rows, which is also the index the next new row gets. */
    function Counter(): nat
      reads this
    {
      |rows|
    }

    /** setValue(column, row, value): writing at index Counter() appends a new row; an
        existing row gets the column added or overwritten. */
    method SetValue(column: string, row: nat, value: Cell)
      requires row <= |rows|
      modifies this
      ensures row < old(|rows|) ==> rows == old(rows)[row := old(rows)[row][column := value]]
      ensures row == old(|rows|) ==> rows == old(rows) + [map[column := value]]
    {
      if row < |rows| {
        rows := rows[row := rows[row][column := value]];
      } else {
        rows := rows + [map[column := value]];
      }
    }
  }

  /** ImageJ's Overlay: the regions drawn over the image, in the order added. */
  class Overlay {
    var items: seq<Marked>

    constructor ()
      ensures items == []
    {
      items := [];
    }

    method Add(item: Marked)
      modifies this
      ensures items == old(items) + [item]
    {
      items := items + [item];
    }
  }

  /** Writes the first shape columns of one accepted region into a new row
      (Freddy_allslices.py:136, 144-147). */
  method WritePosition(rt: ResultsTable, title: string, z: int, roi: Roi) returns (row: nat)
    modifies rt
    ensures row == old(|rt.rows|)
    ensures rt.rows == old(rt.rows) + [PositionRow(title, z, roi)]
  {
    ghost var r0 := rt.rows;
    row := rt.Counter();
    rt.SetValue("Image", row, Text(title));
    ghost var m := map["Image" := Text(title)];
    assert rt.rows == r0 + [m];
    rt.SetValue("X", row, Number(roi.rx as real + roi.rw as real / 2.0));
    m := m["X" := Number(roi.rx as real + roi.rw as real / 2.0)];
    assert rt.rows == r0 + [m];
    rt.SetValue("Y", row, Number(roi.ry as real + roi.rh as real / 2.0));
    m := m["Y" := Number(roi.ry as real + roi.rh as real / 2.0)];
    assert rt.rows == r0 + [m];
    rt.SetValue("Z", row, Number(z as real));
    m := m["Z" := Number(z as real)];
    assert rt.rows == r0 + [m];
  }

  /** Writes the measurement columns into row `row` (Freddy_allslices.py:148-152). */
  method WriteMeasures(rt: ResultsTable, row: nat, cal: Calibration, roi: Roi)
    requires row < |rt.rows|
    modifies rt
    ensures rt.rows == old(rt.rows)[row := WithMeasures(old(rt.rows)[row], cal, roi)]
  {
    ghost var r0 := rt.rows;
    ghost var m := rt.rows[row];
    rt.SetValue("Area", row, Number(roi.area * cal.pixelWidth * cal.pixelHeight));
    m := m["Area" := Number(roi.area * cal.pixelWidth * cal.pixelHeight)];
    rt.SetValue("Max Feret", row, Number(roi.maxFeret * cal.pixelWidth));
    m := m["Max Feret" := Number(roi.maxFeret * cal.pixelWidth)];
    rt.SetValue("Min Feret", row, Number(roi.minFeret * cal.pixelWidth));
    m := m["Min Feret" := Number(roi.minFeret * cal.pixelWidth)];
    rt.SetValue("Feret Ratio", row, Number(FeretRatio(roi)));
    m := m["Feret Ratio" := Number(FeretRatio(roi))];
    rt.SetValue("Circularity", row, Number(Circularity(roi)));
    m := m["Circularity" := Number(Circularity(roi))];
    assert rt.rows == r0[row := m];
    ghost var measured := WithMeasures(r0[row], cal, roi);
    assert m.Keys == measured.Keys;
    assert forall k :: k in m ==> m[k] == measured[k];
    assert m == measured;
  }

  /** Writes the four columns of channel c into row `row` (Freddy_allslices.py:158-161). */
  method WriteChannel(rt: ResultsTable, row: nat, c: nat, st: Stats)
    requires row < |rt.rows|
    modifies rt
    ensures rt.rows == old(rt.rows)[row := old(rt.rows)[row]
      [ColumnKey(c, "Mean") := Number(st.mean)]
      [ColumnKey(c, "Min") := Number(st.min)]
      [ColumnKey(c, "Max") := Number(st.max)]
      [ColumnKey(c, "StdDev") := Number(st.stdDev)]]
  {
    rt.SetValue(ColumnKey(c, "Mean"), row, Number(st.mean));
    rt.SetValue(ColumnKey(c, "Min"), row, Number(st.min));
    rt.SetValue(ColumnKey(c, "Max"), row, Number(st.max));
    rt.SetValue(ColumnKey(c, "StdDev"), row, Number(st.stdDev));
  }

  /** Adds the row of one accepted region: the shape columns, then channels 1..C
      (Freddy_allslices.py:136, 144-161). */
  method AppendRow(rt: ResultsTable, title: string, z: int, cal: Calibration, nChannels: nat,
                   roi: Roi, stats: (int, int, Roi) -> Stats)
    modifies rt
    ensures rt.rows == old(rt.rows) + [RowOf(title, z, cal, nChannels, roi, stats)]
  {
    ghost var r0 := rt.rows;
    var row := WritePosition(rt, title, z, roi);
    WriteMeasures(rt, row, cal, roi);
    ghost var shape := ShapeRow(title, z, cal, roi);
    assert rt.rows == r0 + [shape];
    for c := 1 to nChannels + 1
      invariant rt.rows == old(rt.rows) + [ChannelColumns(shape, c - 1, z, roi, stats)]
    {
      WriteChannel(rt, row, c, stats(c, z, roi));
    }
  }

  /** The loop over the candidates of slice z (Freddy_allslices.py:130-164): each one goes
      into the overlay, and each accepted one adds its row to the table. */
  method MeasureSlice(rt: ResultsTable, ol: Overlay, title: string, z: int, cal: Calibration,
                      nChannels: nat, nucrois: seq<Roi>, stats: (int, int, Roi) -> Stats)
    modifies rt, ol
    ensures rt.rows == old(rt.rows) + AcceptedRows(title, z, cal, nChannels, nucrois, stats)
    ensures ol.items == old(ol.items) + OverlayItems(cal, z, nucrois)
  {
    for i := 0 to |nucrois|
      invariant rt.rows == old(rt.rows) + AcceptedRows(title, z, cal, nChannels, nucrois[..i], stats)
      invariant ol.items == old(ol.items) + OverlayItems(cal, z, nucrois[..i])
    {
      var roi := nucrois[i];
      assert nucrois[..i + 1][..i] == nucrois[..i];
      if Accepts(cal, roi) {
        ol.Add(Accepted(roi, z));
        AppendRow(rt, title, z, cal, nChannels, roi, stats);
      } else {
        ol.Add(Rejected(roi));
      }
    }
    assert nucrois[..|nucrois|] == nucrois;
  }

  // ---------------------------------------------------------------------------------------
  // The slice loop

  /** The rows slice z adds. candidates(z, cs) are the regions found in slice z in the mask
      built from channels cs. */
  function SliceRows(title: string, z: int, cal: Calibration, allC: bool, nChannels: nat,
                     candidates: (int, seq<int>) -> seq<Roi>, stats: (int, int, Roi) -> Stats): seq<Row>
  {
    AcceptedRows(title, z, cal, nChannels, candidates(z, SourceSlots(allC)), stats)
  }

  /** The overlay entries of slice z. */
  function SliceItems(z: int, cal: Calibration, allC: bool, candidates: (int, seq<int>) -> seq<Roi>): seq<Marked>
  {
    OverlayItems(cal, z, candidates(z, SourceSlots(allC)))
  }

  /** The rows the first n passes of a run over the slices zs append: the rows of each of
      those slices in turn. */
  function RunRows(title: string, zs: seq<int>, n: nat, cal: Calibration, allC: bool, nChannels: nat,
                   candidates: (int, seq<int>) -> seq<Roi>, stats: (int, int, Roi) -> Stats): seq<Row>
    requires n <= |zs|
  {
    if n == 0 then []
    else RunRows(title, zs, n - 1, cal, allC, nChannels, candidates, stats)
           + SliceRows(title, zs[n - 1], cal, allC, nChannels, candidates, stats)
  }

  /** The overlay entries of the first n passes of a run over the slices zs. */
  function RunItems(zs: seq<int>, n: nat, cal: Calibration, allC: bool,
                    candidates: (int, seq<int>) -> seq<Roi>): seq<Marked>
    requires n <= |zs|
  {
    if n == 0 then []
    else RunItems(zs, n - 1, cal, allC, candidates) + SliceItems(zs[n - 1], cal, allC, candidates)
  }

  /** Every row the first n passes of a run add records one of the slices visited and an
      area inside the band. */
  lemma {:induction false} RunRowsInBand(title: string, zs: seq<int>, n: nat, cal: Calibration, allC: bool,
                                         nChannels: nat, candidates: (int, seq<int>) -> seq<Roi>,
                                         stats: (int, int, Roi) -> Stats)
    requires n <= |zs|
    ensures forall r: Row :: r in RunRows(title, zs, n, cal, allC, nChannels, candidates, stats) ==>
      && "Z" in r && r["Z"].Number? && (exists k :: 0 <= k < n && r["Z"].x == zs[k] as real)
      && "Area" in r && r["Area"].Number? && MinArea <= r["Area"].x <= MaxArea
  {
    if n > 0 {
      var z := zs[n - 1];
      RunRowsInBand(title, zs, n - 1, cal, allC, nChannels, candidates, stats);
      AcceptedRowsInBand(title, z, cal, nChannels, candidates(z, SourceSlots(allC)), stats);
    }
  }

  /** One pass of the slice loop (Freddy_allslices.py:96-164): the masks the regions come
      from are looked up, which raises an IndexError when the image has fewer than four
      channels, before anything is written; otherwise the slice's candidates are measured. */
  method MeasureNext(rt: ResultsTable, ol: Overlay, title: string, zs: seq<int>, i: nat, allC: bool,
                     nChannels: nat, cal: Calibration, candidates: (int, seq<int>) -> seq<Roi>,
                     stats: (int, int, Roi) -> Stats, ghost rows0: seq<Row>, ghost items0: seq<Marked>)
    returns (err: Option<ScriptError>)
    requires i < |zs|
    requires rt.rows == rows0 + RunRows(title, zs, i, cal, allC, nChannels, candidates, stats)
    requires ol.items == items0 + RunItems(zs, i, cal, allC, candidates)
    modifies rt, ol
    ensures err.Some? <==> nChannels < 4
    ensures err.Some? ==> err.value == IndexError && rt.rows == old(rt.rows) && ol.items == old(ol.items)
    ensures err.None? ==>
      && rt.rows == rows0 + RunRows(title, zs, i + 1, cal, allC, nChannels, candidates, stats)
      && ol.items == items0 + RunItems(zs, i + 1, cal, allC, candidates)
  {
    var channel: int -> int := c => c;
    RegionMasksAvailable(allC, nChannels, channel);
    var region := RegionMasks(allC, nChannels, channel);
    if region.Failure? {
      return Some(region.error);
    }
    MeasureRegions(rt, ol, title, zs, i, region.value, allC, nChannels, cal, candidates, stats, rows0, items0);
    return None;
  }

  /** The rest of a pass of the slice loop, once the masks of the channels `channels` have been
      found: the candidates of slice zs[i] are measured. */
  method MeasureRegions(rt: ResultsTable, ol: Overlay, title: string, zs: seq<int>, i: nat,
                        channels: seq<int>, allC: bool, nChannels: nat, cal: Calibration,
                        candidates: (int, seq<int>) -> seq<Roi>, stats: (int, int, Roi) -> Stats,
                        ghost rows0: seq<Row>, ghost items0: seq<Marked>)
    requires i < |zs| && channels == SourceSlots(allC)
    requires rt.rows == rows0 + RunRows(title, zs, i, cal, allC, nChannels, candidates, stats)
    requires ol.items == items0 + RunItems(zs, i, cal, allC, candidates)
    modifies rt, ol
    ensures rt.rows == rows0 + RunRows(title, zs, i + 1, cal, allC, nChannels, candidates, stats)
    ensures ol.items == items0 + RunItems(zs, i + 1, cal, allC, candidates)
  {
    ghost var done := RunRows(title, zs, i, cal, allC, nChannels, candidates, stats);
    ghost var shown := RunItems(zs, i, cal, allC, candidates);
    MeasureSlice(rt, ol, title, zs[i], cal, nChannels, candidates(zs[i], channels), stats);
    ghost var added := SliceRows(title, zs[i], cal, allC, nChannels, candidates, stats);
    ghost var marked := SliceItems(zs[i], cal, allC, candidates);
    assert rt.rows == (rows0 + done) + added == rows0 + (done + added);
    assert ol.items == (items0 + shown) + marked == items0 + (shown + marked);
  }

  /** The loop over the slices zs (Freddy_allslices.py:95-164). */
  method MeasureSlices(rt: ResultsTable, ol: Overlay, title: string, zs: seq<int>, allC: bool,
                       nChannels: nat, cal: Calibration, candidates: (int, seq<int>) -> seq<Roi>,
                       stats: (int, int, Roi) -> Stats)
    returns (err: Option<ScriptError>)
    modifies rt, ol
    ensures err.Some? <==> nChannels < 4 && |zs| > 0
    ensures err.Some? ==> err.value == IndexError && rt.rows == old(rt.rows) && ol.items == old(ol.items)
    ensures err.None? ==>
      && rt.rows == old(rt.rows) + RunRows(title, zs, |zs|, cal, allC, nChannels, candidates, stats)
      && ol.items == old(ol.items) + RunItems(zs, |zs|, cal, allC, candidates)
  {
    ghost var rows0, items0 := rt.rows, ol.items;
    for i := 0 to |zs|
      invariant nChannels < 4 ==> i == 0
      invariant rt.rows == rows0 + RunRows(title, zs, i, cal, allC, nChannels, candidates, stats)
      invariant ol.items == items0 + RunItems(zs, i, cal, allC, candidates)
    {
      err := MeasureNext(rt, ol, title, zs, i, allC, nChannels, cal, candidates, stats, rows0, items0);
      if err.Some? {
        return;
      }
    }
    return None;
  }

  /** run (Freddy_allslices.py:83-164) after the segmentation: the slices of Slices are
      measured into the script's global table and into a new overlay. A zero pixel width makes
      `sigma / cal.pixelWidth` (line 90) raise before the overlay exists; `ol` is then null. */
  method Run(rt: ResultsTable, title: string, all: bool, current: int, nSlices: nat, allC: bool,
             nChannels: nat, cal: Calibration, candidates: (int, seq<int>) -> seq<Roi>,
             stats: (int, int, Roi) -> Stats)
    returns (ol: Overlay?, err: Option<ScriptError>)
    modifies rt
    ensures err == Some(ZeroDivisionError) <==> cal.pixelWidth == 0.0
    ensures err == Some(IndexError) <==>
      cal.pixelWidth != 0.0 && nChannels < 4 && |Slices(all, current, nSlices)| > 0
    ensures err.Some? ==> err.value in {ZeroDivisionError, IndexError} && rt.rows == old(rt.rows)
    ensures ol == null <==> cal.pixelWidth == 0.0
    ensures ol != null ==> fresh(ol)
    ensures err == Some(IndexError) ==> ol != null && ol.items == []
    ensures err.None? ==>
      && ol != null
      && var zs := Slices(all, current, nSlices);
         && rt.rows == old(rt.rows) + RunRows(title, zs, |zs|, cal, allC, nChannels, candidates, stats)
         && ol.items == RunItems(zs, |zs|, cal, allC, candidates)
  {
    if cal.pixelWidth == 0.0 {
      return null, Some(ZeroDivisionError);
    }
    ol := new Overlay();
    var zs := Slices(all, current, nSlices);
    err := MeasureSlices(rt, ol, title, zs, allC, nChannels, cal, candidates, stats);
  }

}
