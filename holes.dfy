/** fillHoles (Freddy_allslices.py:33-55): background pixels that a border-seeded flood fill
    cannot reach are holes and become foreground. */
module Holes {
  import opened Pixels
  import opened FloodFill

  /** The drawing colour of the border fills (mask.setColor(127)). */
  const Sentinel: Byte := 127

  /** The mask fillHoles leaves behind, pixel by pixel: 0 where the pixel already held the
      sentinel or is background reached through background from the border, 255 elsewhere. */
  ghost function HolesFilled(g: seq<Byte>, w: nat): (r: seq<Byte>)
    ensures |r| == |g| && IsBinary(r)
  {
    seq(|g|, i requires 0 <= i < |g| => if g[i] == Sentinel || BorderConnected(g, w, i) then 0 else 255)
  }

  /** The border fills done so far over the original mask g: the pixels of `reached` now hold
      the sentinel, each of them is background reached from the border, and the set is closed
      under stepping to background neighbours. */
  ghost predicate Sweep(s: seq<Byte>, g: seq<Byte>, w: nat, reached: set<int>)
  {
    && |s| == |g|
    && (forall i :: 0 <= i < |g| ==> s[i] == if i in reached then Sentinel else g[i])
    && (forall i :: i in reached ==> 0 <= i < |g| && g[i] == 0 && BorderConnected(g, w, i))
    && (forall i, j :: i in reached && 0 <= j < |g| && g[j] == 0 && Adjacent(w, i, j) ==> j in reached)
  }

  /** One border fill from the background pixel b adds the region it colours to `reached`. */
  lemma FillStep(s: seq<Byte>, g: seq<Byte>, w: nat, reached: set<int>, b: nat)
    returns (reached': set<int>)
    requires Sweep(s, g, w, reached) && b < |s| && s[b] == 0 && OnBorder(w, |g|, b)
    ensures Sweep(Filled(s, w, b, Sentinel), g, w, reached')
    ensures reached <= reached' && b in reached'
  {
    var n := |g|;
    var region := set i | 0 <= i < n && Connected(s, w, 0, b, i);
    reached' := reached + region;
    ConnectedSelf(s, w, b);
    var f := Filled(s, w, b, Sentinel);
    forall i | i in region
      ensures g[i] == 0 && BorderConnected(g, w, i)
    {
      var path :| IsPath(s, w, 0, path) && path[0] == b && path[|path| - 1] == i;
      PathTransfer(s, g, w, 0, 0, path);
    }
    forall i, j | i in reached' && 0 <= j < n && g[j] == 0 && Adjacent(w, i, j)
      ensures j in reached'
    {
      if i in region && j !in reached {
        ConnectedStep(s, w, 0, b, i, j);
      }
    }
  }

  /** The mask after one guarded fill of fillHoles: a sentinel fill from pixel b when it is
      background, the mask unchanged otherwise. */
  ghost function FillFrom(s: seq<Byte>, w: nat, b: nat): seq<Byte>
    requires b < |s|
  {
    if s[b] == 0 then Filled(s, w, b, Sentinel) else s
  }

  /** Fills from the border pixel b when it is background (mask.getPixel(..) == background). */
  method FillIfBackground(a: array<Byte>, w: nat, b: nat, ghost g: seq<Byte>, ghost reached: set<int>)
    returns (ghost reached': set<int>)
    requires Sweep(a[..], g, w, reached) && OnBorder(w, a.Length, b)
    modifies a
    ensures a[..] == FillFrom(old(a[..]), w, b)
    ensures Sweep(a[..], g, w, reached')
    ensures reached <= reached' && (g[b] == 0 ==> b in reached')
  {
    reached' := reached;
    if a[b] == 0 {
      ghost var s := a[..];
      Fill(a, w, b, Sentinel);
      reached' := FillStep(s, g, w, reached, b);
    }
  }

  /** When every background border pixel has been filled from, the sentinel marks exactly
      the pixels that held it already or are background reached from the border. */
  lemma SweepComplete(s: seq<Byte>, g: seq<Byte>, w: nat, reached: set<int>)
    requires Sweep(s, g, w, reached)
    requires forall b :: OnBorder(w, |g|, b) && g[b] == 0 ==> b in reached
    ensures forall i :: 0 <= i < |g| ==> (s[i] == Sentinel <==> g[i] == Sentinel || BorderConnected(g, w, i))
  {
    forall i | 0 <= i < |g| && BorderConnected(g, w, i)
      ensures i in reached
    {
      var path :| IsPath(g, w, 0, path) && OnBorder(w, |g|, path[0]) && path[|path| - 1] == i;
      ClosedContainsPath(g, w, 0, reached, path);
    }
  }

  /** Within the row that starts at pixel `row`, the column of pixel b is its offset b - row. */
  lemma ColumnInRow(w: nat, row: int, b: int)
    requires w > 0 && row % w == 0 && row <= b < row + w
    ensures b % w == b - row
  {
    assert row == (row / w) * w;
    DivModUnique(b, w, row / w, b - row);
  }

  /** Fills from the first and the last pixel of the row that starts at pixel `row`
      (mask.getPixel(0, y) and mask.getPixel(width - 1, y)); both lie on the border. */
  method FillRowEnds(a: array<Byte>, w: nat, row: int, ghost g: seq<Byte>, ghost reached: set<int>)
    returns (ghost reached': set<int>)
    requires Sweep(a[..], g, w, reached)
    requires w > 0 && 0 <= row && row + w <= a.Length
    requires OnBorder(w, a.Length, row) && OnBorder(w, a.Length, row + w - 1)
    modifies a
    ensures a[..] == FillFrom(FillFrom(old(a[..]), w, row), w, row + w - 1)
    ensures Sweep(a[..], g, w, reached') && reached <= reached'
    ensures g[row] == 0 ==> row in reached'
    ensures g[row + w - 1] == 0 ==> row + w - 1 in reached'
  {
    ghost var s0 := a[..];
    reached' := FillIfBackground(a, w, row, g, reached);
    ghost var s1 := a[..];
    reached' := FillIfBackground(a, w, row + w - 1, g, reached');
    assert a[..] == FillFrom(s1, w, row + w - 1) && s1 == FillFrom(s0, w, row);
  }

  /** Every background pixel of g in the first or the last column, before pixel hi, has been
      filled from. */
  ghost predicate SidesCovered(g: seq<Byte>, w: nat, reached: set<int>, hi: int)
    requires w > 0
  {
    forall b :: 0 <= b < hi && b < |g| && (b % w == 0 || b % w == w - 1) && g[b] == 0 ==> b in reached
  }

  /** Filling from both ends of the row that starts at pixel `row` covers that row's sides. */
  lemma SidesStep(g: seq<Byte>, w: nat, before: set<int>, after: set<int>, row: int)
    requires w > 0 && 0 <= row && row % w == 0
    requires SidesCovered(g, w, before, row) && before <= after
    requires row < |g| && g[row] == 0 ==> row in after
    requires row + w - 1 < |g| && g[row + w - 1] == 0 ==> row + w - 1 in after
    ensures SidesCovered(g, w, after, row + w)
  {
    forall b | row <= b < row + w && b < |g| && (b % w == 0 || b % w == w - 1) && g[b] == 0
      ensures b in after
    {
      RowEndPixel(w, row, b);
    }
  }

  /** The first and the last pixel of a row lie on the border. */
  lemma RowEnds(w: nat, n: nat, row: int)
    requires w > 0 && 0 <= row && row % w == 0 && row + w <= n
    ensures OnBorder(w, n, row) && OnBorder(w, n, row + w - 1)
  {
    ColumnInRow(w, row, row + w - 1);
  }

  /** The pixels of a row in the first or the last column are its two ends. */
  lemma RowEndPixel(w: nat, row: int, b: int)
    requires w > 0 && row % w == 0 && row <= b < row + w && (b % w == 0 || b % w == w - 1)
    ensures b == row || b == row + w - 1
  {
    ColumnInRow(w, row, b);
  }

  /** The last row of a w-by-h image starts w pixels before its end. */
  lemma LastRow(w: nat, h: nat)
    requires h > 0
    ensures (h - 1) * w == w * h - w && h * w == w * h
  {
  }

  /** Row y starts at a multiple of w, and row y + 1 starts w pixels after it. */
  lemma RowStart(w: nat, y: nat, row: int)
    requires w > 0 && row == y * w
    ensures row % w == 0 && row + w == (y + 1) * w
  {
    DivModUnique(row, w, y, 0);
  }

  /** The first loop of fillHoles: fills from every background pixel of the first and last
      column, row by row. */
  method SweepColumns(a: array<Byte>, w: nat, h: nat, ghost g: seq<Byte>) returns (ghost reached: set<int>)
    requires w > 0 && h > 0 && a.Length == w * h
    requires a[..] == g
    modifies a
    ensures Sweep(a[..], g, w, reached)
    ensures forall b :: 0 <= b < a.Length && (b % w == 0 || b % w == w - 1) && g[b] == 0 ==> b in reached
  {
    reached := {};
    var y, row := 0, 0;
    while y < h
      invariant 0 <= y <= h && row == y * w
      invariant Sweep(a[..], g, w, reached)
      invariant SidesCovered(g, w, reached, row)
    {
      RowStart(w, y, row);
      IndexInImage(w, h, w - 1, y);
      RowEnds(w, a.Length, row);
      ghost var before := reached;
      reached := FillRowEnds(a, w, row, g, reached);
      SidesStep(g, w, before, reached, row);
      y, row := y + 1, row + w;
    }
    LastRow(w, h);
  }

  /** Fills from pixel x of the top row and pixel x of the bottom row, which starts at
      pixel `bottom` (mask.getPixel(x, 0) and mask.getPixel(x, height - 1)). */
  method FillColumnEnds(a: array<Byte>, w: nat, x: nat, bottom: nat, ghost g: seq<Byte>, ghost reached: set<int>)
    returns (ghost reached': set<int>)
    requires Sweep(a[..], g, w, reached)
    requires x < w && bottom == a.Length - w
    modifies a
    ensures a[..] == FillFrom(FillFrom(old(a[..]), w, x), w, bottom + x)
    ensures Sweep(a[..], g, w, reached') && reached <= reached'
    ensures g[x] == 0 ==> x in reached'
    ensures g[bottom + x] == 0 ==> bottom + x in reached'
  {
    ghost var s0 := a[..];
    reached' := FillIfBackground(a, w, x, g, reached);
    ghost var s1 := a[..];
    reached' := FillIfBackground(a, w, bottom + x, g, reached');
    assert a[..] == FillFrom(s1, w, bottom + x) && s1 == FillFrom(s0, w, x);
  }

  /** Every background pixel of g in [lo, hi) has been filled from. */
  ghost predicate Covered(g: seq<Byte>, reached: set<int>, lo: int, hi: int)
  {
    forall b :: lo <= b < hi && 0 <= b < |g| && g[b] == 0 ==> b in reached
  }

  /** Filling from pixel hi extends the covered range by one pixel. */
  lemma CoveredStep(g: seq<Byte>, before: set<int>, after: set<int>, lo: int, hi: int)
    requires Covered(g, before, lo, hi) && before <= after
    requires 0 <= hi < |g| && g[hi] == 0 ==> hi in after
    ensures Covered(g, after, lo, hi + 1)
  {
  }

  /** The second loop of fillHoles: fills from every background pixel of the first and last
      row, column by column; the last row starts at pixel `bottom`, that is (height - 1) * width. */
  method SweepRows(a: array<Byte>, w: nat, bottom: nat, ghost g: seq<Byte>, ghost reached: set<int>)
    returns (ghost reached': set<int>)
    requires w > 0 && bottom == a.Length - w
    requires Sweep(a[..], g, w, reached)
    modifies a
    ensures Sweep(a[..], g, w, reached') && reached <= reached'
    ensures forall b :: 0 <= b < w && g[b] == 0 ==> b in reached'
    ensures forall b :: bottom <= b < a.Length && g[b] == 0 ==> b in reached'
  {
    reached' := reached;
    var x := 0;
    while x < w
      invariant 0 <= x <= w && |g| == a.Length
      invariant Sweep(a[..], g, w, reached') && reached <= reached'
      invariant Covered(g, reached', 0, x) && Covered(g, reached', bottom, bottom + x)
    {
      ghost var before := reached';
      reached' := FillColumnEnds(a, w, x, bottom, g, reached');
      CoveredStep(g, before, reached', 0, x);
      CoveredStep(g, before, reached', bottom, bottom + x);
      x := x + 1;
    }
  }

  /** The last loop of fillHoles: the sentinel becomes 0 and every other value 255. */
  method ReplaceSentinel(a: array<Byte>)
    modifies a
    ensures forall k :: 0 <= k < a.Length ==> a[k] == if old(a[k]) == Sentinel then 0 else 255
  {
    var i := 0;
    while i < a.Length
      invariant 0 <= i <= a.Length
      invariant forall k :: 0 <= k < i ==> a[k] == if old(a[k]) == Sentinel then 0 else 255
      invariant forall k :: i <= k < a.Length ==> a[k] == old(a[k])
    {
      if a[i] == Sentinel {
        a[i] := 0;
      } else {
        a[i] := 255;
      }
      i := i + 1;
    }
  }

  /** fillHoles: flood-fills with the sentinel from every background pixel of the left and
      right columns, then of the top and bottom rows, then maps the sentinel to 0 and every
      other value to 255. */
  method FillHoles(a: array<Byte>, w: nat, h: nat)
    requires w > 0 && h > 0 && a.Length == w * h
    modifies a
    ensures a[..] == HolesFilled(old(a[..]), w)
  {
    ghost var g := a[..];
    ghost var reached := SweepColumns(a, w, h, g);
    var bottom := (h - 1) * w;
    LastRow(w, h);
    MulMono(0, h - 1, w);
    reached := SweepRows(a, w, bottom, g, reached);
    SweepComplete(a[..], g, w, reached);
    ghost var s := a[..];
    ReplaceSentinel(a);
    assert forall k :: 0 <= k < a.Length ==> a[k] == HolesFilled(g, w)[k];
  }

  /** A pixel on a border walk through background is itself border-connected. */
  lemma WalkPixelsBorderConnected(g: seq<Byte>, w: nat, path: seq<int>, k: nat)
    requires IsPath(g, w, 0, path) && OnBorder(w, |g|, path[0]) && k < |path|
    ensures BorderConnected(g, w, path[k])
  {
    PathPrefix(g, w, 0, path, k + 1);
    assert path[..k + 1][0] == path[0];
  }

  /** On a 0/255 mask, fillHoles leaves 0 exactly at the background pixels reached through
      background from the border; every other pixel, foreground or enclosed hole, is 255. */
  lemma BinaryMaskFilled(g: seq<Byte>, w: nat)
    requires IsBinary(g)
    ensures forall i :: 0 <= i < |g| ==>
      (HolesFilled(g, w)[i] == 0 <==> g[i] == 0 && BorderConnected(g, w, i))
    ensures forall i :: 0 <= i < |g| && g[i] == 255 ==> HolesFilled(g, w)[i] == 255
  {
    forall i | 0 <= i < |g| && BorderConnected(g, w, i)
      ensures g[i] == 0
    {
      var path :| IsPath(g, w, 0, path) && OnBorder(w, |g|, path[0]) && path[|path| - 1] == i;
      PathEnds(g, w, 0, path);
    }
  }

  /** On a 0/255 mask, filling holes a second time changes nothing. */
  lemma {:induction false} FillHolesIdempotent(g: seq<Byte>, w: nat)
    requires IsBinary(g)
    ensures HolesFilled(HolesFilled(g, w), w) == HolesFilled(g, w)
  {
    var f := HolesFilled(g, w);
    BinaryMaskFilled(g, w);
    forall i | 0 <= i < |g|
      ensures HolesFilled(f, w)[i] == f[i]
    {
      if BorderConnected(g, w, i) {
        var path :| IsPath(g, w, 0, path) && OnBorder(w, |g|, path[0]) && path[|path| - 1] == i;
        forall k | 0 <= k < |path|
          ensures f[path[k]] == 0
        {
          WalkPixelsBorderConnected(g, w, path, k);
        }
        assert IsPath(f, w, 0, path);
      }
    }
  }

  /** A pixel that already holds the sentinel comes out as background, so on such a mask
      fillHoles is not idempotent: a 127 pixel enclosed by foreground becomes 0, and a second
      pass fills it to 255. */
  lemma SentinelInputNotIdempotent(g: seq<Byte>)
    requires g == [255, 255, 255, 255, 127, 255, 255, 255, 255]
    ensures HolesFilled(g, 3)[4] == 0
    ensures HolesFilled(HolesFilled(g, 3), 3)[4] == 255
  {
    var f := HolesFilled(g, 3);
    assert forall k :: 0 <= k < 9 && k != 4 ==> f[k] == 255;
    assert !BorderConnected(f, 3, 4);
  }
}
