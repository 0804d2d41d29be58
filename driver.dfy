/** The slice and channel selection of run (Freddy_allslices.py:93-98) and the choice of
    the masks the regions come from (Freddy_allslices.py:96, 107, 110-125). */
module Driver {
  import opened Wrappers

  /** The errors run can raise. */
  datatype ScriptError =
    | ZeroDivisionError  // sigma / cal.pixelWidth with a zero pixel width (Freddy_allslices.py:90)
    | IndexError         // masks[c] with c beyond the end of the list
    | NoMask             // masks[c] still None: never raised, since every slot read holds a mask
                         // (RegionMasksAvailable); it keeps Pick total over any list of slots

  /** Python's range(lo, hi): lo, lo + 1, ..., hi - 1, or nothing when hi <= lo. */
  function Range(lo: int, hi: int): (r: seq<int>)
    ensures |r| == if hi <= lo then 0 else hi - lo
    ensures forall k :: 0 <= k < |r| ==> r[k] == lo + k
    ensures forall x :: x in r <==> lo <= x < hi
    decreases hi - lo
  {
    if hi <= lo then [] else [lo] + Range(lo + 1, hi)
  }

  /** The slices run visits: z0 = 1 and z1 = Z + 1 with `all`, otherwise only the current
      slice. */
  function Slices(all: bool, current: int, nSlices: nat): seq<int>
  {
    var z0 := if all then 1 else current;
    var z1 := if all then nSlices + 1 else z0 + 1;
    Range(z0, z1)
  }

  /** The first channel segmented: every channel with allC, otherwise channel 4 only. */
  function FirstChannel(allC: bool): int
  {
    if allC then 1 else 4
  }

  /** The channels segmented in each slice: range(c0, C + 1). */
  function Channels(allC: bool, nChannels: nat): seq<int>
  {
    Range(FirstChannel(allC), nChannels + 1)
  }

  /** With `all`, slices 1..Z in increasing order; otherwise the current slice alone. */
  lemma SlicesVisited(all: bool, current: int, nSlices: nat)
    ensures all ==> (|Slices(all, current, nSlices)| == nSlices &&
                     forall k :: 0 <= k < nSlices ==> Slices(all, current, nSlices)[k] == k + 1)
    ensures !all ==> Slices(all, current, nSlices) == [current]
  {
  }

  /** Channels c0..C in increasing order, c0 being 1 with allC and 4 otherwise; none when C < c0. */
  lemma ChannelsVisited(allC: bool, nChannels: nat)
    ensures var c0 := if allC then 1 else 4;
      && |Channels(allC, nChannels)| == (if nChannels < c0 then 0 else nChannels - c0 + 1)
      && forall k :: 0 <= k < |Channels(allC, nChannels)| ==> Channels(allC, nChannels)[k] == c0 + k
  {
  }

  /** The list masks after the channel loop of one slice: C + 1 slots, slot c holding the
      mask of channel c for every channel segmented and None elsewhere. */
  function ChannelMasks<M>(allC: bool, nChannels: nat, mask: int -> M): (masks: seq<Option<M>>)
    ensures |masks| == nChannels + 1
    ensures forall c :: 0 <= c <= nChannels ==>
      masks[c] == if c in Channels(allC, nChannels) then Some(mask(c)) else None
  {
    seq(nChannels + 1, c => if FirstChannel(allC) <= c then Some(mask(c)) else None)
  }

  /** The slots the regions come from: masks[2], masks[3] and masks[4] for the channel union
      with allC, masks[4] alone otherwise. */
  function SourceSlots(allC: bool): seq<nat>
  {
    if allC then [2, 3, 4] else [4]
  }

  /** Reads the given slots of masks in order, failing as Python indexing would. */
  function Pick<M>(masks: seq<Option<M>>, slots: seq<nat>): Result<seq<M>, ScriptError>
  {
    if slots == [] then Success([])
    else if slots[0] >= |masks| then Failure(IndexError)
    else if masks[slots[0]].None? then Failure(NoMask)
    else match Pick(masks, slots[1..])
      case Success(rest) => Success([masks[slots[0]].value] + rest)
      case Failure(e) => Failure(e)
  }

  /** The masks the regions of a slice come from. */
  function RegionMasks<M>(allC: bool, nChannels: nat, mask: int -> M): Result<seq<M>, ScriptError>
  {
    Pick(ChannelMasks(allC, nChannels, mask), SourceSlots(allC))
  }

  /** Regions can be extracted exactly when the image has at least four channels: they then
      come from channels 2, 3 and 4 (allC) or from channel 4; with fewer channels masks[4]
      (or masks[2]) lies beyond the end of the list and run stops with an IndexError. */
  lemma RegionMasksAvailable<M>(allC: bool, nChannels: nat, mask: int -> M)
    ensures nChannels >= 4 ==>
      (RegionMasks(allC, nChannels, mask) == Success(if allC then [mask(2), mask(3), mask(4)] else [mask(4)]))
    ensures nChannels < 4 ==> RegionMasks(allC, nChannels, mask) == Failure(IndexError)
  {
    var masks := ChannelMasks(allC, nChannels, mask);
    var none: seq<nat> := [];
    var s4: seq<nat> := [4];
    var s34: seq<nat> := [3, 4];
    var s234: seq<nat> := [2, 3, 4];
    assert s4[1..] == none && s34[1..] == s4 && s234[1..] == s34;
    if nChannels >= 4 {
      assert masks[4] == Some(mask(4));
      assert Pick(masks, none) == Success([]);
      assert Pick(masks, s4) == Success([masks[4].value] + []);
      assert [masks[4].value] + [] == [mask(4)];
      assert Pick(masks, s4) == Success([mask(4)]);
      if allC {
        assert masks[3] == Some(mask(3)) && masks[2] == Some(mask(2));
        assert [masks[3].value] + [mask(4)] == [mask(3), mask(4)];
        assert Pick(masks, s34) == Success([mask(3), mask(4)]);
        assert [masks[2].value] + [mask(3), mask(4)] == [mask(2), mask(3), mask(4)];
        assert Pick(masks, s234) == Success([mask(2), mask(3), mask(4)]);
      }
    } else if allC {
      if nChannels == 3 {
        assert masks[3] == Some(mask(3));
        assert Pick(masks, s34) == Failure(IndexError);
      } else if nChannels == 2 {
        assert masks[2] == Some(mask(2));
        assert Pick(masks, s34) == Failure(IndexError);
      }
    }
  }
}
