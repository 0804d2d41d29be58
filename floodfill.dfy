/** ImageJ's 4-connected flood fill (FloodFiller.fill) on a byte image, as fillHoles uses it. */
module FloodFill {
  import opened Pixels

  /** The image after a 4-connected fill from `seed` with drawing colour `colour`: every
      pixel reached from the seed through pixels of the seed's value takes the colour and
      every other pixel keeps its value; a seed that already has the colour changes nothing. */
  ghost function Filled(g: seq<Byte>, w: nat, seed: nat, colour: Byte): (r: seq<Byte>)
    requires seed < |g|
    ensures |r| == |g|
  {
    seq(|g|, i requires 0 <= i < |g| =>
      if g[seed] != colour && Connected(g, w, g[seed], seed, i) then colour else g[i])
  }

  /** The state of a fill in progress over the original image g: the pixels of `region`
      have been coloured, each of them is reached from the seed, and `rest` holds the
      target-valued pixels not coloured yet. */
  ghost predicate Progress(s: seq<Byte>, g: seq<Byte>, w: nat, seed: int, target: Byte, colour: Byte,
                           region: set<int>, rest: set<int>)
  {
    && |s| == |g| && target != colour
    && (forall i :: 0 <= i < |g| ==> s[i] == if i in region then colour else g[i])
    && (forall i :: i in region ==> 0 <= i < |g| && Connected(g, w, target, seed, i))
    && (forall j :: j in rest <==> 0 <= j < |g| && g[j] == target && j !in region)
  }

  /** Every pixel waiting on the stack is in the region, and every region pixel that is not
      waiting has all its target-valued neighbours in the region already. */
  ghost predicate Frontier(g: seq<Byte>, w: nat, target: Byte, region: set<int>, stack: seq<int>)
  {
    && (forall x :: x in stack ==> x in region)
    && (forall i, j :: i in region && i !in stack && 0 <= j < |g| && g[j] == target && Adjacent(w, i, j) ==> j in region)
  }

  /** Once all target-valued neighbours of p are in the region, p can leave the stack. */
  lemma Retire(g: seq<Byte>, w: nat, target: Byte, region: set<int>, stack: seq<int>, p: int)
    requires Frontier(g, w, target, region, stack + [p])
    requires forall j :: 0 <= j < |g| && g[j] == target && Adjacent(w, p, j) ==> j in region
    ensures Frontier(g, w, target, region, stack)
  {
    forall i, j | i in region && i !in stack && 0 <= j < |g| && g[j] == target && Adjacent(w, i, j)
      ensures j in region
    {
      if i != p {
        assert i !in stack + [p];
      }
    }
  }

  /** The four neighbours of p inside an image of n pixels, `w` wide. */
  lemma NeighbourCases(w: nat, n: int, p: int, j: int)
    requires Adjacent(w, p, j) && 0 <= j < n && 0 <= p
    ensures || (j == p - 1 && p % w != 0)
            || (j == p + 1 && p + 1 < n && (p + 1) % w != 0)
            || (j == p - w && p >= w)
            || (j == p + w && p + w < n)
  {
  }

  /** When every existing target-valued neighbour of p is in the region, so is every
      target-valued pixel adjacent to p. */
  lemma NeighboursCovered(g: seq<Byte>, w: nat, target: Byte, region: set<int>, p: int)
    requires w > 0 && 0 <= p < |g|
    requires 0 < p && p % w != 0 && g[p - 1] == target ==> p - 1 in region
    requires p + 1 < |g| && (p + 1) % w != 0 && g[p + 1] == target ==> p + 1 in region
    requires p >= w && g[p - w] == target ==> p - w in region
    requires p + w < |g| && g[p + w] == target ==> p + w in region
    ensures forall j :: 0 <= j < |g| && g[j] == target && Adjacent(w, p, j) ==> j in region
  {
    forall j | 0 <= j < |g| && g[j] == target && Adjacent(w, p, j)
      ensures j in region
    {
      NeighbourCases(w, |g|, p, j);
    }
  }

  /** Looks at neighbour q of the pixel p being expanded, when that neighbour exists (`inside`):
      if q still has the target value it is coloured, added to the region and pushed. */
  method Visit(a: array<Byte>, w: nat, p: int, inside: bool, q: int, target: Byte, colour: Byte,
               ghost g: seq<Byte>, ghost seed: int, ghost region: set<int>, ghost rest: set<int>,
               stack: seq<int>)
    returns (ghost region': set<int>, ghost rest': set<int>, stack': seq<int>)
    requires Progress(a[..], g, w, seed, target, colour, region, rest)
    requires Frontier(g, w, target, region, stack + [p])
    requires p in region && (inside ==> 0 <= q < a.Length && Adjacent(w, p, q))
    modifies a
    ensures Progress(a[..], g, w, seed, target, colour, region', rest')
    ensures Frontier(g, w, target, region', stack' + [p])
    ensures inside && g[q] == target ==> q in region'
    ensures region <= region'
    ensures |rest'| < |rest| || (|rest'| == |rest| && |stack'| == |stack|)
  {
    region', rest', stack' := region, rest, stack;
    if inside {
      if a[q] == target {
        ConnectedStep(g, w, target, seed, p, q);
        a[q] := colour;
        region', rest', stack' := region + {q}, rest - {q}, stack + [q];
        forall i, j | i in region' && i !in stack' + [p] && 0 <= j < |g| && g[j] == target && Adjacent(w, i, j)
          ensures j in region'
        {
          assert i !in stack + [p];
        }
      }
    }
  }

  /** Looks at the left and right neighbours of pixel p. */
  method VisitRow(a: array<Byte>, w: nat, p: int, target: Byte, colour: Byte,
                  ghost g: seq<Byte>, ghost seed: int, ghost region: set<int>, ghost rest: set<int>,
                  stack: seq<int>)
    returns (ghost region': set<int>, ghost rest': set<int>, stack': seq<int>)
    requires Progress(a[..], g, w, seed, target, colour, region, rest)
    requires Frontier(g, w, target, region, stack + [p])
    requires w > 0 && p in region && 0 <= p < |g|
    modifies a
    ensures Progress(a[..], g, w, seed, target, colour, region', rest')
    ensures Frontier(g, w, target, region', stack' + [p])
    ensures 0 < p && p % w != 0 && g[p - 1] == target ==> p - 1 in region'
    ensures p + 1 < |g| && (p + 1) % w != 0 && g[p + 1] == target ==> p + 1 in region'
    ensures region <= region'
    ensures |rest'| < |rest| || (|rest'| == |rest| && |stack'| == |stack|)
  {
    var n := a.Length;
    assert n == |g|;
    ghost var region1, rest1;
    var stack1;
    region1, rest1, stack1 :=
      Visit(a, w, p, 0 < p && p % w != 0, p - 1, target, colour, g, seed, region, rest, stack);
    region', rest', stack' :=
      Visit(a, w, p, p + 1 < n && (p + 1) % w != 0, p + 1, target, colour, g, seed, region1, rest1, stack1);
  }

  /** Looks at the upper and lower neighbours of pixel p. */
  method VisitColumn(a: array<Byte>, w: nat, p: int, target: Byte, colour: Byte,
                     ghost g: seq<Byte>, ghost seed: int, ghost region: set<int>, ghost rest: set<int>,
                     stack: seq<int>)
    returns (ghost region': set<int>, ghost rest': set<int>, stack': seq<int>)
    requires Progress(a[..], g, w, seed, target, colour, region, rest)
    requires Frontier(g, w, target, region, stack + [p])
    requires w > 0 && p in region && 0 <= p < |g|
    modifies a
    ensures Progress(a[..], g, w, seed, target, colour, region', rest')
    ensures Frontier(g, w, target, region', stack' + [p])
    ensures p >= w && g[p - w] == target ==> p - w in region'
    ensures p + w < |g| && g[p + w] == target ==> p + w in region'
    ensures region <= region'
    ensures |rest'| < |rest| || (|rest'| == |rest| && |stack'| == |stack|)
  {
    var n := a.Length;
    assert n == |g|;
    ghost var region1, rest1;
    var stack1;
    region1, rest1, stack1 :=
      Visit(a, w, p, p >= w, p - w, target, colour, g, seed, region, rest, stack);
    region', rest', stack' :=
      Visit(a, w, p, p + w < n, p + w, target, colour, g, seed, region1, rest1, stack1);
  }

  /** Fills, in place, the 4-connected region of the seed's value that contains the seed.
      Pixels still to be expanded wait on a stack; each pixel is coloured when pushed, so it
      is pushed at most once. */
  method Fill(a: array<Byte>, w: nat, seed: nat, colour: Byte)
    requires w > 0 && seed < a.Length
    modifies a
    ensures a[..] == Filled(old(a[..]), w, seed, colour)
  {
    ghost var g := a[..];
    var n := a.Length;
    var target := a[seed];
    if target == colour {
      return;
    }
    ghost var region: set<int> := {seed};
    ghost var rest: set<int> := set j | 0 <= j < n && g[j] == target && j != seed;
    ConnectedSelf(g, w, seed);
    a[seed] := colour;
    var stack := [seed];
    while stack != []
      invariant Progress(a[..], g, w, seed, target, colour, region, rest)
      invariant Frontier(g, w, target, region, stack)
      invariant seed in region
      decreases |rest|, |stack|
    {
      ghost var stack0 := stack;
      var p := stack[|stack| - 1];
      stack := stack[..|stack| - 1];
      assert stack + [p] == stack0;
      assert p in stack0;
      region, rest, stack := VisitRow(a, w, p, target, colour, g, seed, region, rest, stack);
      region, rest, stack := VisitColumn(a, w, p, target, colour, g, seed, region, rest, stack);
      NeighboursCovered(g, w, target, region, p);
      Retire(g, w, target, region, stack, p);
    }
    forall i | 0 <= i < n
      ensures a[i] == Filled(g, w, seed, colour)[i]
    {
      if Connected(g, w, target, seed, i) {
        var path :| IsPath(g, w, target, path) && path[0] == seed && path[|path| - 1] == i;
        ClosedContainsPath(g, w, target, region, path);
      }
    }
  }
}
