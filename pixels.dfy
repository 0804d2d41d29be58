/** Byte images stored as flat pixel buffers (as ImageJ's ByteProcessor keeps them),
    4-adjacency between pixels and connectivity through pixels of one value. */
module Pixels {

  /** An 8-bit pixel value of a ByteProcessor. */
  type Byte = bv8

  /** Pixel j is one of the four neighbours of pixel i in an image `w` pixels wide.
      Pixel i sits at column i % w of row i / w, so i + 1 is its right neighbour unless
      it starts a new row, and i + w is the pixel below it. */
  predicate Adjacent(w: nat, i: int, j: int)
  {
    w > 0 &&
    ((j == i + 1 && j % w != 0) || (i == j + 1 && i % w != 0) || j == i + w || i == j + w)
  }

  /** Pixel i of an image of n pixels, `w` wide, lies in its first or last column
      or in its first or last row. */
  predicate OnBorder(w: nat, n: nat, i: int)
  {
    w > 0 && 0 <= i < n && (i % w == 0 || i % w == w - 1 || i < w || i >= n - w)
  }

  /** `path` is a 4-connected walk through pixels of `g` that all have value `v`. */
  ghost predicate IsPath(g: seq<Byte>, w: nat, v: Byte, path: seq<int>)
  {
    && |path| > 0
    && (forall k :: 0 <= k < |path| ==> 0 <= path[k] < |g| && g[path[k]] == v)
    && (forall k :: 0 <= k < |path| - 1 ==> Adjacent(w, path[k], path[k + 1]))
  }

  /** Pixel q is reached from pixel p by a walk through pixels of value v. */
  ghost predicate Connected(g: seq<Byte>, w: nat, v: Byte, p: int, q: int)
  {
    exists path :: IsPath(g, w, v, path) && path[0] == p && path[|path| - 1] == q
  }

  /** Pixel i is background (0) and reached through background from a background border pixel. */
  ghost predicate BorderConnected(g: seq<Byte>, w: nat, i: int)
  {
    exists path :: IsPath(g, w, 0, path) && OnBorder(w, |g|, path[0]) && path[|path| - 1] == i
  }

  /** Every pixel of the image is 0 or 255. */
  predicate IsBinary(g: seq<Byte>)
  {
    forall i :: 0 <= i < |g| ==> g[i] == 0 || g[i] == 255
  }

  lemma PathEnds(g: seq<Byte>, w: nat, v: Byte, path: seq<int>)
    requires IsPath(g, w, v, path)
    ensures 0 <= path[0] < |g| && g[path[0]] == v
    ensures 0 <= path[|path| - 1] < |g| && g[path[|path| - 1]] == v
  {
  }

  /** A single pixel of value v is a walk, so every such pixel is connected to itself. */
  lemma ConnectedSelf(g: seq<Byte>, w: nat, p: int)
    requires 0 <= p < |g|
    ensures Connected(g, w, g[p], p, p)
  {
    assert IsPath(g, w, g[p], [p]);
  }

  /** A walk extended by a neighbour of its last pixel that has the same value is a walk. */
  lemma PathExtend(g: seq<Byte>, w: nat, v: Byte, path: seq<int>, q: int)
    requires IsPath(g, w, v, path)
    requires 0 <= q < |g| && g[q] == v && Adjacent(w, path[|path| - 1], q)
    ensures IsPath(g, w, v, path + [q])
  {
    var ext := path + [q];
    forall k | 0 <= k < |ext| - 1
      ensures Adjacent(w, ext[k], ext[k + 1])
    {
      if k < |path| - 1 {
        assert ext[k] == path[k] && ext[k + 1] == path[k + 1];
      }
    }
  }

  /** A non-empty prefix of a walk is a walk. */
  lemma PathPrefix(g: seq<Byte>, w: nat, v: Byte, path: seq<int>, m: nat)
    requires IsPath(g, w, v, path) && 0 < m <= |path|
    ensures IsPath(g, w, v, path[..m])
  {
    var pre := path[..m];
    forall k | 0 <= k < |pre| - 1
      ensures Adjacent(w, pre[k], pre[k + 1])
    {
      assert pre[k] == path[k] && pre[k + 1] == path[k + 1];
    }
  }

  /** Connectivity grows by one step to any same-valued neighbour. */
  lemma ConnectedStep(g: seq<Byte>, w: nat, v: Byte, p: int, q: int, r: int)
    requires Connected(g, w, v, p, q)
    requires 0 <= r < |g| && g[r] == v && Adjacent(w, q, r)
    ensures Connected(g, w, v, p, r)
  {
    var path :| IsPath(g, w, v, path) && path[0] == p && path[|path| - 1] == q;
    PathExtend(g, w, v, path, r);
    assert (path + [r])[0] == p;
  }

  /** A walk through pixels of value v in g is still a walk in h when every such pixel
      has value u in h. */
  lemma PathTransfer(g: seq<Byte>, h: seq<Byte>, w: nat, v: Byte, u: Byte, path: seq<int>)
    requires IsPath(g, w, v, path) && |h| == |g|
    requires forall i :: 0 <= i < |g| && g[i] == v ==> h[i] == u
    ensures IsPath(h, w, u, path)
  {
  }

  /** A set of pixels closed under stepping to v-valued neighbours contains the end of
      every v-walk that starts inside it. */
  lemma {:induction false} ClosedContainsPath(g: seq<Byte>, w: nat, v: Byte, R: set<int>, path: seq<int>)
    requires IsPath(g, w, v, path) && path[0] in R
    requires forall i, j :: i in R && 0 <= j < |g| && g[j] == v && Adjacent(w, i, j) ==> j in R
    ensures path[|path| - 1] in R
  {
    if |path| > 1 {
      PathPrefix(g, w, v, path, |path| - 1);
      ClosedContainsPath(g, w, v, R, path[..|path| - 1]);
      assert Adjacent(w, path[|path| - 2], path[|path| - 1]);
    }
  }

  /** Euclidean division by w is unique: b == q * w + r with 0 <= r < w fixes b / w and b % w. */
  lemma DivModUnique(b: int, w: int, q: int, r: int)
    requires w > 0 && 0 <= r < w && b == q * w + r
    ensures b / w == q && b % w == r
  {
    var q0 := b / w;
    if q0 > q {
      MulMono(q + 1, q0, w);
      assert false;
    } else if q0 < q {
      MulMono(q0 + 1, q, w);
      assert false;
    }
  }

  lemma MulMono(a: int, b: int, w: int)
    requires a <= b && w >= 0
    ensures a * w <= b * w
  {
  }

  /** The index y * w + x of column x in row y lies inside a w-by-h image. */
  lemma IndexInImage(w: nat, h: nat, x: nat, y: nat)
    requires x < w && y < h
    ensures y * w + x < w * h
  {
    assert (y + 1) * w <= h * w;
  }
}
