# Freddy_allslices — a Dafny model of the script's own logic

Freddy_allslices.py is a Jython ImageJ script that segments nuclei. It runs slice by slice through a
multi-channel stack. For each region found, it writes shape measurements and per-channel
intensity statistics to a results table. Most of its steps call ImageJ (blurring, automatic
thresholding, the distance map, maxima finding, polygon extraction, ROI statistics). This
project models the logic the script writes itself and proves what that logic guarantees.

- `pixels.dfy` (`Pixels`): byte masks as flat pixel buffers of width `w`, the same layout ImageJ's
  `ByteProcessor` uses. It defines 4-adjacency, the image border, and connectivity through pixels of
  one value; the connectivity is a ghost predicate stating that a walk exists.
- `floodfill.dfy` (`FloodFill`): `FloodFiller.fill`, the 4-connected fill `fillHoles` relies on. It is
  a worklist fill on an `array<bv8>`, proved to recolour exactly the region of the seed's value that
  is connected to the seed (`Filled`).
- `holes.dfy` (`Holes`): `fillHoles`, in place, as the script writes it. There are two sweeps over
  the border pixels, each seeding sentinel (127) fills from background pixels. A final pass then maps
  127 to 0 and everything else to 255. The method is proved to produce `HolesFilled`. That function
  gives 0 where a pixel held 127 or is background reachable through background from the border, and
  255 everywhere else.
- `blitter.dfy` (`Blitting`): `copyBits` with the ADD, OR and AND transfer modes. This covers the
  watershed cut (`AND` with the maxima finder's segmented image, when there is one) and the union of
  the masks of channels 2, 3 and 4.
- `driver.dfy` (`Driver`): the slice range `z0..z1`, the channel range `c0..C`, the list `masks` of
  `C + 1` slots, and the lookups `masks[2..4]` / `masks[4]`. These fail with an `IndexError`
  exactly when the image has fewer than four channels.
- `measure.dfy` (`Measure`): the accept/reject loop over the candidate regions of a slice, and the
  slice loop around it. `run` itself raises a `ZeroDivisionError` at line 90 when the pixel width
  is zero, before any overlay or row exists. `ResultsTable` and `Overlay` are classes whose lists
  grow in place. A row
  is a map from column heading to cell. Channel headings are `"C" + str(c) + stat`, with Python's
  `str` on naturals modelled and proved injective.

On fillHoles and idempotence: the code, not a blanket "fillHoles is idempotent", is what the
model follows. A pixel that already holds the sentinel value 127 before the sweeps comes out as 0
even when it is enclosed by foreground. A second run then fills it to 255, so on such masks fillHoles
is not idempotent (`Holes.SentinelInputNotIdempotent` exhibits a 3×3 mask). On 0/255 masks, which
is what the thresholding step produces, it is idempotent (`Holes.FillHolesIdempotent`).

## Model

| member | source | states |
|---|---|---|
| FloodFill.Fill | Freddy_allslices.py:36-49 | `ff.fill(x, y)`: afterwards the mask is `Filled(old mask, seed)`. Every pixel joined to the seed by a 4-connected walk through pixels of the seed's value holds the drawing colour, and every other pixel is unchanged. A seed already in the drawing colour changes nothing. |
| Holes.HolesFilled | Freddy_allslices.py:50-55 | The mask fillHoles leaves has the size of its input and holds only 0 and 255: the sentinel never survives. |
| Holes.FillHoles | Freddy_allslices.py:33-55 | After fillHoles the mask is `HolesFilled(old mask)`, pixel by pixel. A pixel is 0 exactly when it held 127 or is background reached through background from a background border pixel; every other pixel is 255. |
| Holes.FillIfBackground | Freddy_allslices.py:41-42 | A fill is started from a border pixel only when it is background. The new mask is `FillFrom(old mask, b)`: the sentinel fill `Filled(old mask, b, 127)` when pixel b was 0, and the old mask unchanged otherwise. That pixel is then in the filled set, and the sweep invariant `Sweep` still holds. |
| Holes.FillStep | Freddy_allslices.py:41-49 | One border fill keeps the sweep invariant. The sentinel marks exactly the filled set, every filled pixel is border-connected background, and the set is closed under background neighbours. |
| Holes.FillRowEnds | Freddy_allslices.py:41-44 | One pass of the first loop is the guarded fill from the first pixel of row y followed by the guarded fill from its last pixel. The new mask is the composition of the two `FillFrom` steps, each background end is filled from, and the sweep invariant is kept. |
| Holes.SweepColumns | Freddy_allslices.py:40-44 | After the first loop, every background pixel of the first and last column has been filled from. |
| Holes.FillColumnEnds | Freddy_allslices.py:46-49 | One pass of the second loop is the guarded fill from pixel x of the top row followed by the one from pixel x of the bottom row. The new mask is the composition of the two `FillFrom` steps, each background end is filled from, and the sweep invariant is kept. |
| Holes.SweepRows | Freddy_allslices.py:45-49 | After the second loop, every background pixel of the top and bottom rows has been filled from, and nothing filled earlier is lost. |
| Holes.SweepComplete | Freddy_allslices.py:40-49 | Once every background border pixel has been filled from, a pixel holds 127 iff it held 127 already or is background reached from the border. |
| Holes.ReplaceSentinel | Freddy_allslices.py:50-55 | The last loop turns every 127 into 0 and every other value into 255. |
| Holes.BinaryMaskFilled | Freddy_allslices.py:36-55 | On a 0/255 mask, a pixel ends 0 iff it was background and 4-connected through background to the border. Enclosed holes and all foreground end 255, and every 255 pixel stays 255. |
| Holes.FillHolesIdempotent | Freddy_allslices.py:33-55 | On a 0/255 mask, filling holes in the output again gives the same mask. |
| Holes.SentinelInputNotIdempotent | Freddy_allslices.py:50-55 | An enclosed pixel already holding 127 comes out 0 after one run and 255 after a second. |
| Blitting.CopyBits | Freddy_allslices.py:62 | `ip.copyBits(src, 0, 0, mode)` replaces every pixel by its blend with the source pixel at the same place (ADD saturating at 255, bitwise OR, bitwise AND). |
| Blitting.CutWatershedLines | Freddy_allslices.py:61-62 | Without a segmented image the mask is unchanged. Otherwise it becomes the pixelwise AND of the mask and that image. |
| Blitting.CutOnlyRemoves | Freddy_allslices.py:58-62 | The cut keeps a bitwise subset of each pixel, so no pixel grows. Background stays background, and 0/255 masks stay 0/255. |
| Blitting.AddIntoBlankCopies | Freddy_allslices.py:111-112 | ADD of an image into a blank one yields exactly that image. |
| Blitting.FusedIsUnion | Freddy_allslices.py:111-114 | The fused mask is nonzero at a pixel iff masks 2, 3 or 4 is nonzero there, and it equals their bitwise OR. On 0/255 masks it is 0/255 and contains each of them. |
| Blitting.FuseMasks | Freddy_allslices.py:111-114 | The union is built in a fresh array, by ADD of masks[2] into a blank image and then OR of masks[3] and masks[4]. |
| Driver.Range | Freddy_allslices.py:95 | Python's `range(lo, hi)`: hi − lo consecutive integers from lo when hi > lo, otherwise none. |
| Driver.SlicesVisited | Freddy_allslices.py:93-95 | With `all`, slices 1..Z are visited in increasing order. Otherwise only the current slice is visited. |
| Driver.ChannelsVisited | Freddy_allslices.py:97-98 | Channels c0..C are visited in increasing order, with c0 = 1 under `allC` and 4 otherwise. There are none when C < c0. |
| Driver.ChannelMasks | Freddy_allslices.py:96-107 | `masks` has C + 1 slots. Slot c holds channel c's mask iff c is among the channels visited; every other slot is None. |
| Driver.RegionMasksAvailable | Freddy_allslices.py:110-125 | With C ≥ 4 the regions come from the masks of channels 2, 3 and 4 (`allC`) or of channel 4. With C < 4 the lookup raises IndexError. |
| Measure.NatToString | Freddy_allslices.py:158 | `str(c)` is a non-empty string of decimal digits. |
| Measure.DecimalRoundTrip | Freddy_allslices.py:158 | Reading back the digits of `str(c)` gives c. |
| Measure.NatToStringInjective | Freddy_allslices.py:158 | `str(a) == str(b)` iff a == b. |
| Measure.ColumnKeyInjective | Freddy_allslices.py:158-161 | Two headings `"C"+str(c)+stat` are equal iff channel and statistic are equal. |
| Measure.ColumnKeyNotFixed | Freddy_allslices.py:144-161 | No channel heading is a shape-column heading. |
| Measure.SameChannel | Freddy_allslices.py:158-161 | The four headings of one channel are distinct. |
| Measure.OtherChannel | Freddy_allslices.py:153-161 | No heading of channel c is a heading of another channel. |
| Measure.ChannelKeysExact | Freddy_allslices.py:153-161 | The channel headings of channels 1..C are exactly `"C"+str(c)+stat` for 1 ≤ c ≤ C and stat among Mean, Min, Max, StdDev. |
| Measure.FixedNotChannelKey | Freddy_allslices.py:144-161 | A shape heading is never among the channel headings. |
| Measure.ChannelColumnsKeys | Freddy_allslices.py:153-161 | The channel loop adds exactly the channel headings to the row's columns. |
| Measure.ChannelColumnsKeep | Freddy_allslices.py:153-161 | The channel loop leaves every other column of the row as it was. |
| Measure.ChannelColumnsValues | Freddy_allslices.py:153-161 | After the channel loop, channel c's four columns hold that channel's mean, min, max and standard deviation, for every c in 1..C. |
| Measure.LastChannelValues | Freddy_allslices.py:158-161 | The last channel written holds its own four statistics. |
| Measure.RowColumns | Freddy_allslices.py:144-161 | An accepted row has exactly the nine shape columns plus the four columns of each channel 1..C. |
| Measure.RowChannelValues | Freddy_allslices.py:153-161 | In an accepted row, channel c's columns hold channel c's statistics inside the region. |
| Measure.ShapeRowValues | Freddy_allslices.py:144-152 | The shape columns are all present. Image is the title, Z the slice, and Area and the Feret diameters are converted with the calibration. |
| Measure.RowKeepsShape | Freddy_allslices.py:144-161 | The channel columns never overwrite a shape column. |
| Measure.FeretColumnsAgree | Freddy_allslices.py:143-152 | With a nonzero pixel width, a row's Feret Ratio column equals its Min Feret column over its Max Feret column, since the calibration cancels out. Its Circularity column times the squared perimeter in pixels is 4π times the area in pixels. |
| Measure.RowShapeValues | Freddy_allslices.py:144-161 | The final row still holds the title, the slice, the calibrated area and the calibrated Feret diameters. |
| Measure.AcceptedIndicesExact | Freddy_allslices.py:130-132 | The accepted positions are strictly increasing and in range, and contain candidate i iff its calibrated area lies in [minA, maxA]. |
| Measure.AcceptedRowsFollowCandidates | Freddy_allslices.py:130-161 | A slice adds one row per accepted candidate, in candidate order, and row k is the row of the k-th accepted candidate. |
| Measure.RowInBand | Freddy_allslices.py:131-148 | The row of an accepted region records its slice and an area within [minA, maxA]. |
| Measure.AcceptedRowsInBand | Freddy_allslices.py:130-148 | Every row a slice adds records that slice and an area within [minA, maxA]. |
| Measure.OverlayItemsExact | Freddy_allslices.py:130-164 | Every candidate, accepted or not, adds exactly one overlay entry, in candidate order. Accepted ones are placed on the slice; the rest are drawn red. |
| Measure.ResultsTable.constructor | Freddy_allslices.py:173 | A new table has no rows. |
| Measure.ResultsTable.SetValue | Freddy_allslices.py:144-161 | `setValue(column, row, value)` at the counter appends a row holding that one cell. On an existing row it adds or overwrites the one column, and every other row is untouched. |
| Measure.Overlay.constructor | Freddy_allslices.py:92 | A new overlay is empty. |
| Measure.Overlay.Add | Freddy_allslices.py:138 | `ol.add(roi)` appends one entry at the end. |
| Measure.WritePosition | Freddy_allslices.py:136-147 | The first `setValue` calls, at `row = rt.getCounter()`, append one row holding Image, X, Y and Z. |
| Measure.WriteMeasures | Freddy_allslices.py:148-152 | That row gains Area, Max Feret, Min Feret, Feret Ratio and Circularity, and nothing else changes. |
| Measure.WriteChannel | Freddy_allslices.py:158-161 | The row gains channel c's four statistics columns, and nothing else changes. |
| Measure.AppendRow | Freddy_allslices.py:136-161 | An accepted region appends exactly one row, `RowOf(...)`: the shape columns, then the columns of channels 1..C. |
| Measure.MeasureSlice | Freddy_allslices.py:130-164 | The table grows by `AcceptedRows` of the candidates and the overlay by `OverlayItems`, both in candidate order. |
| Measure.RunRowsInBand | Freddy_allslices.py:95-148 | Every row a run adds records one of the slices visited and an area within [minA, maxA]. |
| Measure.MeasureNext | Freddy_allslices.py:96-164 | One pass of the slice loop fails with IndexError iff C < 4, and then writes nothing. Otherwise it extends the table and overlay by exactly that slice's rows and entries. |
| Measure.MeasureRegions | Freddy_allslices.py:122-164 | Once the masks of channels [2, 3, 4] (all channels) or [4] have been found, the table and overlay grow by exactly the rows and entries of slice zs[i], appended after those of the earlier slices. |
| Measure.MeasureSlices | Freddy_allslices.py:95-164 | The slice loop fails iff C < 4 and there is a slice, and then nothing was written. Otherwise the table and overlay grow by the rows and entries of every slice, in slice order. |
| Measure.Run | Freddy_allslices.py:83-164 | run raises ZeroDivisionError iff the pixel width is 0 (line 90), before the overlay is made and before any row. Otherwise it measures the slices `Slices(all, current, Z)` into the global table and a fresh overlay, and raises IndexError, before any row and with the overlay empty, iff C < 4 and a slice is visited. |

## Left out

- DoG (Freddy_allslices.py:24-30) is Gaussian blurring and a pixelwise subtraction clamped to the
  image type's range (saturating at 0 on byte and short data, a float subtraction only on 32-bit
  data), both done by ImageJ. The `sigmaPx` it is given (line 90) is therefore not modelled, only
  the division's failure on a zero pixel width.
- getMask (Freddy_allslices.py:65-72) is automatic thresholding and float rescaling in ImageJ. Its
  `method` argument is ignored: Huang is always used (line 68), although the caller passes Otsu
  (line 101). It is not part of this model; masks reach the model as given byte images.
- The distance map and `MaximumFinder` of watershed (Freddy_allslices.py:59-60) are library
  algorithms over floats. Their segmented output is an input of `Blitting.CutWatershedLines`, which
  may be absent.
- `dilate`/`erode` (Freddy_allslices.py:102-103, 117-120) depend on ImageJ's global binary options
  and are not modelled.
- getRois (Freddy_allslices.py:75-80) is polygon extraction by ImageJ. `Measure.Run` takes the regions
  of each slice as a parameter `candidates(z, channels)`, a function of the slice and of the
  channels whose masks produced them.
- The measurements ImageJ makes of a region are opaque values carried in `Roi` and `Stats`: the
  pixel area, bounding rectangle, perimeter, maximum and minimum Feret diameters, and the
  per-channel mean/min/max/standard deviation. The script's own arithmetic on them is modelled:
  the calibration, the Feret ratio (line 151) and the circularity (line 143). Floating point is
  modelled as exact reals, and `maths.pi` as its 16-digit decimal value.
- Measure.Roi: its perimeter and maximum Feret diameter are positive, because every region traced
  from a mask covers at least one pixel. The ZeroDivisionError that lines 143 and 151 would raise
  for a degenerate region is therefore not modelled.
- The index mask (Freddy_allslices.py:127, 133-135) and all display (Freddy_allslices.py:165-169)
  only affect what is shown. `show` therefore has no parameter.
- The top-level script (Freddy_allslices.py:171-193) is left out: dialogs, `Prefs`, directory
  listing, opening images and showing the table are I/O.
- FloodFill.Fill: ImageJ's `FloodFiller.fill` is a scanline fill. The model uses a stack of pixels
  with the same result on every input, proved by `Filled`. The order in which pixels are coloured
  is not modelled.
- Measure.ResultsTable.SetValue: ImageJ stores columns, and fills the cells a row lacks with 0 when
  a column exists. The model keeps each row as the map of the cells written to it. Writing beyond
  the counter (an exception in ImageJ) is excluded by a precondition, because the script only
  writes at the counter or below.
- Blitting.CopyBits: clipping of a source whose size differs from the destination is not modelled.
  The script only combines images of one size.
- The channel segmentation loop (Freddy_allslices.py:98-108) is modelled only through which slots of
  `masks` it fills (`Driver.ChannelMasks`). `channelrois` (line 108) is computed but never used.
