# DICOM viewer core, modelled in Dafny

This project models the computational core of a Qt/DCMTK DICOM slice viewer
and proves properties about it. The modelled parts are:

- **Collection loading (`DicomViewer`).** `openDicomCollection` checks each
  selected file in order: it loads, it has a single patient, its instance
  number is unique, it decodes, and its pixel spacing is identical to the
  first file's. While checking, it keeps a running value range and builds a
  map keyed by instance number. It then derives the slice spacing and offset
  from the two extreme instances and rejects irregular slice positions (the
  tolerance is 0.01 mm). Only after every check passes does it commit the
  batch, then update the instance limits. It warns about missing instances
  without undoing anything. `updateVolumicData` and `updateRawData` rebuild
  the 8-bit and 16-bit volumes layer by layer. `getWindow`,
  `getWindowMin` and `getWindowMax` give the window bounds.
- **Flat volume buffers (`VolumicData`, `RawData`).** Each volume is stored as
  a W*H*D array. Voxel (col, row, layer) sits at `col + row*W + layer*W*H`.
  `setLayer` copies one layer in place and checks the layer bound.
  `RawData::setWindow` shifts the window bounds into the unsigned 16-bit
  domain and truncates them to `int`s.
- **Point projection and drawing (`GLWidget`).** `updateDisplayPoints`
  rebuilds one drawable point per voxel. Each point gets a centred,
  normalised position and either a grey level or a bucket of the raw window.
  The point loop of `paintGL` decides for each point whether to emit it and
  with which alpha. `getColor` chooses the colour.
- **`DoubleSlider`.** This is a real interval [min_val, max_val] quantised
  onto the integer positions 0..nb_steps of an inner `QSlider`.

Doubles are modelled as exact `real`s. The two double-to-integer conversions
of the source are written out: the implicit truncating cast is
`Numeric.Trunc`, and `std::round` is `Numeric.Round`.

DCMTK decoding is replaced by parameters:
- Each file is an abstract `SliceFile` record holding the attributes the
  viewer reads.
- Each decoded layer is given as a map from instance number to
  `Option<layer>`.

The OpenGL calls are replaced by the list of vertices they would emit.

The model follows the code in these places:
- `setWindow` applies the full window width on each side of the centre.
  `getWindow` applies only half of it (`Raw.RawWindowSpan`).
- Point positions are centred on the floating half-extent `dim / 2.0`.
- In the regularity check, the two extreme slices always have zero error.
  For instances 1, 2, 3 at z = 0, 2, 5 the check rejects instance 2, with an
  error of 0.5 (`Viewer.IrregularExample`).
- The rejection test is a strict `>`, so an error of exactly 0.01 passes
  (`Viewer.ToleranceExample`).

## Model

| member | source | states |
|---|---|---|
| Numeric.Trunc | src/raw_data.cpp:26-28 | the implicit double-to-int conversion rounds toward zero: for x >= 0 the result is the greatest integer not above x; for x < 0 it is the least integer not below x |
| Numeric.TruncMonotone | src/raw_data.cpp:26-28 | truncation toward zero is monotone |
| Numeric.Round | src/double_slider.cpp:64-68 | `std::round` is within 1/2 of its argument, with halfway cases away from zero (strict on the side toward zero) |
| Numeric.RoundOfInt | src/double_slider.cpp:64-68 | rounding an integral value gives it back |
| Numeric.RoundMonotone | src/double_slider.cpp:64-68 | `std::round` is monotone |
| Numeric.Clamp | src/double_slider.cpp:32-34 | the result is in [lo, hi]; a value already in range is kept; a value below goes to lo and one above goes to hi |
| Layout.IndexBounds | src/volumic_data.cpp:19-21 | the index `col + row*W + layer*W*H` of an in-range voxel lies in [0, W*H*D) |
| Layout.DecomposeIndex | src/glwidget.cpp:98-110 | from a voxel's index, `% W` gives back its column, `(/ W) % H` its row and `/ (W*H)` its layer |
| Layout.IndexInjective | src/volumic_data.cpp:19-21 | distinct in-range voxels have distinct indices |
| Layout.IndexSurjective | src/glwidget.cpp:74-110 | every index in [0, W*H*D) is the index of the in-range voxel (i % W, (i / W) % H, i / (W*H)) |
| Layout.NextVoxel | src/glwidget.cpp:102-110 | stepping the column counter, wrapping into the row and then into the layer, moves from voxel i to voxel i + 1 |
| Layout.LayerBlockInBuffer | src/volumic_data.cpp:28-31 | layer l of a W*H*D buffer occupies [W*H*l, W*H*l + W*H), inside the buffer |
| Layout.CopyBlock | src/volumic_data.cpp:28-31 | the copy loop writes `src[i]` to `a[offset + i]` and leaves every other entry unchanged |
| Layout.LayerReadBack | src/volumic_data.cpp:28-31 | after a layer is written, the voxels of that layer read the source layer; every voxel of every other layer reads as before |
| Volumic.VolumicData.Empty | src/volumic_data.cpp:6-8 | the default constructor creates no voxels, sets every dimension to -1, both pixel sizes to -1 and the spacing to 0 |
| Volumic.VolumicData.constructor | src/volumic_data.cpp:9-10 | creates a fresh buffer of exactly W*H*D zeroed voxels with the given dimensions |
| Volumic.VolumicData.Copy | src/volumic_data.cpp:12-15 | the copy has a fresh buffer with the same voxels, the same dimensions and the same three spacings |
| Volumic.VolumicData.GetValue | src/volumic_data.cpp:19-21 | reads the entry at `col + row*W + layer*W*H`, which lies inside the buffer for every in-range voxel |
| Volumic.VolumicData.SetLayer | src/volumic_data.cpp:23-32 | for a layer at or beyond the depth: returns OutOfRange and leaves the data unchanged. Otherwise: writes exactly block [W*H*l, W*H*l + W*H); afterwards `GetValue(col, row, l)` is `buf[col + row*W]` and `GetValue` of every other layer is as before |
| Raw.OffsetCentresRange | src/raw_data.cpp:26 | the truncated offset moves the midpoint of [collec_min, collec_max] to within 1 of 2^15 |
| Raw.RawWindowOrdered | src/raw_data.cpp:21-29 | for a non-negative width, the stored bounds satisfy w_min <= w_max |
| Raw.RawWindowSpan | src/raw_data.cpp:24-28 | the stored window spans 2*width, up to the two truncations (within 2) |
| Raw.RawWindowExample | src/raw_data.cpp:21-29 | centre 0 and width 2000 over [-1000, 1000] give offset 32768 and bounds (30768, 34768) |
| Raw.RawData.Empty | src/raw_data.cpp:7-9 | no voxels, every dimension -1, pixel sizes -1, spacing 0 |
| Raw.RawData.constructor | src/raw_data.cpp:11-12 | a fresh buffer of exactly W*H*D zeroed 16-bit voxels |
| Raw.RawData.Copy | src/raw_data.cpp:14-17 | copies the voxels, the dimensions and the spacings; says nothing about w_min and w_max, which the source does not copy |
| Raw.RawData.SetWindow | src/raw_data.cpp:21-29 | stores `Trunc(center - width + offset)` and `Trunc(center + width + offset)`, where offset = `Trunc((max - min)/2 + (2^15 - max))`; the properties of these bounds are the Raw lemmas |
| Raw.RawData.GetValue | src/raw_data.cpp:31-33 | reads the entry at the same linear index, which lies inside the buffer for every in-range voxel |
| Raw.RawData.SetLayer | src/raw_data.cpp:35-44 | a layer at or beyond the depth is rejected with the data unchanged; otherwise exactly that layer's block is replaced by the buffer, and `GetValue` reads the new layer there and the old values elsewhere |
| Slider.InnerToValueAffine | src/double_slider.cpp:60-62 | `innerToValue` sends 0 to min_val and nb_steps to max_val, and is affine with slope (max_val - min_val)/nb_steps |
| Slider.InnerToValueInRange | src/double_slider.cpp:60-62 | on an increasing interval, every position 0..nb_steps denotes a value in [min_val, max_val] |
| Slider.RoundTrip | src/double_slider.cpp:60-68 | for max_val != min_val, `valueToInner(innerToValue(i)) == i` |
| Slider.ValueToInnerMonotone | src/double_slider.cpp:64-68 | on an increasing interval, `valueToInner` is non-decreasing |
| Slider.ScaledInRange | src/double_slider.cpp:64-68 | a value in the interval scales to a real position in [0, nb_steps] |
| Slider.EncodeNearest | src/double_slider.cpp:60-68 | a value in the interval encodes to a position in 0..nb_steps that decodes to within half a step of the value |
| Slider.ClampValue | src/double_slider.cpp:37-44 | the clamped previous value is in [min, max], and is unchanged when already in range |
| Slider.SetLimitsValue | src/double_slider.cpp:36-46 | after the clamp and re-encode of `setLimits`, the value is in [min, max]; a previous value in range moves by at most half a step |
| Slider.DoubleSlider.constructor | src/double_slider.cpp:7-26 | the inner slider ranges over 0..nb_steps (1000 by default) and starts at 0, so the first value is min_val |
| Slider.DoubleSlider.Value | src/double_slider.cpp:30 | the value of the inner position; it lies in [min_val, max_val] whenever the interval is increasing |
| Slider.DoubleSlider.SetValue | src/double_slider.cpp:32-34 | the position becomes the encoded value clamped into 0..nb_steps, as `QSlider` clamps it |
| Slider.DoubleSlider.SetLimits | src/double_slider.cpp:36-46 | stores the new limits and re-encodes the clamped previous value; with min < max the new value is in [min, max] and an in-range value moves by at most (max - min)/(2 nb_steps) |
| GL.GreyLevel | src/glwidget.cpp:78-80 | the 8-bit grey level lies in [0, 1], and is the byte divided by 255 |
| GL.Bucket | src/glwidget.cpp:83-96 | below w_min: c = 0, no bucket. Exactly w_max: c = 1, bucket k. Above w_max: c = 1, no bucket. Inside [w_min, w_max): c in [0, 1) and, for k >= 1, a bucket in 0..k-1 |
| GL.BucketMonotone | src/glwidget.cpp:90-94 | inside the window, a higher raw value gets the same or a higher c and bucket |
| GL.BucketRange | src/glwidget.cpp:83-96 | every classification has c in [0, 1] and either no bucket or a bucket in 0..k |
| GL.BucketExample | src/glwidget.cpp:83-96 | over the window [30768, 34768] with k = 6: lower edge gives bucket 0, 2^15 gives bucket 3 with c = 1/2, upper edge gives bucket 6, one past it gives no bucket |
| GL.CentredInUnit | src/glwidget.cpp:98-99 | an axis whose extent is at most the largest one has every centred coordinate in [-1, 1] |
| GL.AxisSpan | src/glwidget.cpp:61-69 | a scaled axis extent is at most 2, and exactly 2 on the axis that realises the largest extent |
| GL.NegativeSpacingLeavesCube | src/glwidget.cpp:61-69 | with a negative slice spacing the z extent drops out of the maximum: 1 x 1 pixels, ten layers of spacing -1 give largest extent 1 and put layer 0 at z = 10, outside the cube |
| GL.PositionInCube | src/glwidget.cpp:61-69 | with non-negative spacings, every voxel's position lies in the cube [-1, 1]^3 |
| GL.LongestAxisSpansTwo | src/glwidget.cpp:61-69 | each axis factor times its dimension is at most 2, and equals 2 on the longest axis |
| GL.Projection | src/glwidget.cpp:51-113 | the point list has exactly W*H*D points |
| GL.ProjectionAt | src/glwidget.cpp:74-111 | voxel (col, row, layer) is point number `col + row*W + layer*W*H`, at its centred position, on its layer, with its grey level or its bucket |
| GL.ProjectionValues | src/glwidget.cpp:76-97 | every point has c in [0, 1]; in 8-bit mode it has no bucket; in 16-bit mode with k >= 1 it has no bucket or a bucket in 0..k |
| GL.PointAlpha | src/glwidget.cpp:191-205 | a point is emitted exactly when in 8-bit mode or when its bucket is not -1 |
| GL.AlphaRules | src/glwidget.cpp:191-205 | an emitted point gets alpha 0 exactly when a hiding rule applies, even on the highlighted slice. Otherwise: alpha 1 on the highlighted slice, the widget's alpha elsewhere |
| GL.SliceIsolation | src/glwidget.cpp:191-205 | hiding above and below leaves every point off the current slice skipped or transparent |
| GL.Colour | src/glwidget.cpp:122-150 | the colour always carries the given alpha. In 16-bit mode a colour is set exactly for buckets 0..6. In 8-bit mode it is the grey (c, c, c) |
| GL.PaletteDistinct | src/glwidget.cpp:128-146 | the seven bucket colours are pairwise distinct |
| GL.PaletteCoversBuckets | src/glwidget.cpp:122-150 | a bucketed point gets a colour exactly when its bucket is at most 6; with k <= 6 every bucketed point gets one |
| GL.Emitted | src/glwidget.cpp:190-209 | the emitted points are at most as many as the points |
| GL.EmittedConcat | src/glwidget.cpp:190-192 | the filter distributes over concatenation, so emitted points keep their list order |
| GL.EmittedSingle | src/glwidget.cpp:190-192 | one point is emitted exactly when the filter lets it through |
| GL.EmittedMembers | src/glwidget.cpp:190-192 | every emitted point is in the list and passes the filter; every point of the list that passes is emitted |
| GL.RenderEmitted | src/glwidget.cpp:190-209 | `paintGL` issues exactly one vertex per emitted point, in list order, at that point's position |
| GL.RenderGrey | src/glwidget.cpp:190-209 | in 8-bit mode every point is drawn, in order, in its own grey, with the filter's alpha |
| GL.RenderColours | src/glwidget.cpp:190-209 | when `getColor` sets a colour for every emitted point, vertex j is at emitted point j's position in the colour `getColor` chose with the filter's alpha |
| GL.BucketsDrawnInPalette | src/glwidget.cpp:83-209 | in 16-bit mode with 1 <= k <= 6, every emitted point has a bucket in 0..k and is drawn in that bucket's palette colour |
| GL.GLWidget.constructor | src/glwidget.cpp:10-17 | alpha is 0.05, every display option is off, and there are no volumes and no points |
| GL.GLWidget.UpdateDisplayPoints | src/glwidget.cpp:51-113 | the new point list is `Projection` of the current state: empty without a display volume, and one point per voxel otherwise |
| GL.GLWidget.ImportPoints | src/glwidget.cpp:74-111 | the loop with column, row and layer counters pushes, for each index in buffer order, the point of the voxel that index decomposes to |
| GL.GLWidget.VoxelColour | src/glwidget.cpp:76-97 | the grey level in 8-bit mode, or the bucket classification of the raw value in 16-bit mode |
| GL.GLWidget.UpdateVolumicData | src/glwidget.cpp:41-44 | takes the new display volume and rebuilds the points from it |
| GL.GLWidget.UpdateRawData | src/glwidget.cpp:46-49 | takes the new raw volume and rebuilds the points from it |
| GL.GLWidget.SetK | src/glwidget.cpp:28-31 | changes only k; the points keep the buckets of the last rebuild |
| GL.GLWidget.SetAlpha | src/glwidget.cpp:23-26 | changes only alpha |
| GL.GLWidget.SetCurrentSlice | src/glwidget.h:25 | changes only the current slice |
| GL.GLWidget.SetHideEmptyPoints | src/glwidget.h:26 | changes only that option |
| GL.GLWidget.SetHighlight | src/glwidget.h:27 | changes only that option |
| GL.GLWidget.SetHideAbove | src/glwidget.h:28 | changes only that option |
| GL.GLWidget.SetHideBelow | src/glwidget.h:29 | changes only that option |
| GL.GLWidget.SetBitEncode | src/glwidget.h:30 | switches the mode without rebuilding the points |
| GL.GLWidget.Paint | src/glwidget.cpp:190-209 | the vertices drawn are `Render` of the points: the properties of that are `GL.RenderEmitted` and `GL.RenderGrey` |
| Viewer.ScanFiles | src/dicom_viewer.cpp:133-200 | the file loop: files in input order; each is checked for load, patient, duplicate instance, decode and pixel spacing in that order; the first failure is returned |
| Viewer.ScanErrorSticks | src/dicom_viewer.cpp:139-200 | once a prefix of the selection is rejected, the whole selection is rejected with the same error |
| Viewer.ScanAccepts | src/dicom_viewer.cpp:139-200 | the loop accepts exactly the selections in which: every file loads and decodes; every name agrees with the first non-empty patient name; instances are distinct; every spacing equals file 0's. The accepted map holds exactly those files keyed by instance, with that patient and file 0's pixel sizes |
| Viewer.AdmitAccepts | src/dicom_viewer.cpp:144-199 | the checks on one file pass exactly when that file meets the conditions it adds to an acceptable selection |
| Viewer.ScanBounds | src/dicom_viewer.cpp:178-181 | after an accepted loop, collection_min is at most every file's used minimum and collection_max at least every file's used maximum |
| Viewer.ScanAttains | src/dicom_viewer.cpp:178-181 | with finite values, collection_min is some file's used minimum and collection_max some file's used maximum |
| Viewer.InstanceLimits | src/dicom_viewer.cpp:359-368 | the limits are the least and greatest keys, or (INT_MAX, INT_MIN) for no keys |
| Viewer.CheckSliceSpacing | src/dicom_viewer.cpp:202-232 | with fewer than two files: accepted, spacing 0. Otherwise: spacing and offset from the extreme instances, accepted exactly when no slice errs by more than 0.01. A rejection carries the error of the least offending instance |
| Viewer.ExtremesExact | src/dicom_viewer.cpp:207-217 | over the reals, the least and greatest instances always have zero error |
| Viewer.LinearAccepted | src/dicom_viewer.cpp:202-232 | slices exactly on z = offset + spacing * instance are accepted with that spacing and offset |
| Viewer.IrregularExample | src/dicom_viewer.cpp:207-231 | instances 1, 2, 3 at z 0, 2, 5: spacing 2.5 and offset -2.5; rejected with error 0.5 at instance 2 |
| Viewer.ToleranceExample | src/dicom_viewer.cpp:220-231 | instances 1, 2, 3 at z 0, 0.01, 0 give spacing 0 and offset 0; instance 2 errs by exactly 0.01 and the selection is accepted |
| Viewer.MissingIffGap | src/dicom_viewer.cpp:247-254 | the missing-instances warning fires exactly when some instance strictly between the least and the greatest is absent |
| Viewer.AssembleStep | src/dicom_viewer.cpp:447 | writing a decoded layer at `instance - min_instance` adds exactly that instance's layer to the assembled volume |
| Viewer.DecodedOrder | src/dicom_viewer.cpp:442-446 | in 16-bit mode no instance after a failed one gets its layer; the 16-bit layers are among the 8-bit ones |
| Viewer.DicomViewer.constructor | src/dicom_viewer.cpp:14-18 | no files, no patient, pixel sizes -1, spacing 0, collection range [DBL_MAX, lowest()]; after the `updateInstanceLimits` call at line 110 the limits are (INT_MAX, INT_MIN) |
| Viewer.DicomViewer.UpdateInstanceLimits | src/dicom_viewer.cpp:359-368 | the instance limits become those of the active files |
| Viewer.DicomViewer.OpenDicomCollection | src/dicom_viewer.cpp:121-254 | an empty selection returns at once. A rejection (any file check or the spacing check) returns its error and changes nothing. An accepted selection replaces files, patient, range, pixel sizes and spacing, then updates the limits. The missing-instances warning fires exactly when the count differs from max - min + 1, and undoes nothing |
| Viewer.DicomViewer.Commit | src/dicom_viewer.cpp:234-247 | the live fields become the batch's and the instance limits are updated |
| Viewer.DicomViewer.UpdateVolumicData | src/dicom_viewer.cpp:460-491 | a fresh W*H*(max - min + 1) volume. Each decoded layer goes to layer `instance - min_instance` (never out of range). A failed decoding leaves only its layer zero. The volume gets the viewer's pixel sizes and spacing |
| Viewer.DicomViewer.CopyRawLayers | src/dicom_viewer.cpp:437-448 | the 16-bit layer walk writes exactly the layers before the first decoding failure, in ascending instance order |
| Viewer.DicomViewer.UpdateRawData | src/dicom_viewer.cpp:425-458 | the same volume shape, holding the layers before the first failure; the window of `setWindow`; the pixel sizes; the spacing truncated to an `int` |
| Viewer.WindowBounds | src/dicom_viewer.cpp:550-555 | the window bounds are width apart and centred on the centre; they are ordered for a non-negative width (`getWindowMin`/`getWindowMax` at 574-579 are the same bounds) |

## Left out

- Qt user interface: windows, layouts, signals and slots, dialogs, image labels, `save`, statistics and slider pass-throughs. They are presentation only.
- DCMTK: `loadFile`, `DicomImage`, `getOutputData`, `getMinMaxValues` and the `getField` attribute reads. A file becomes a `Viewer.SliceFile` record. A decoded layer becomes an `Option` of a W*H buffer per instance, so the viewer's image width and height and the current frame's allowed range are parameters.
- OpenGL and the camera: `initializeGL`, the projection and matrix set-up, mouse and wheel transforms. The GL calls of the point loop become a list of vertices.
- IEEE doubles are exact reals. NaN, infinities and rounding error are not modelled.
- Divisions by zero are excluded by preconditions: a zero largest extent in `updateDisplayPoints` (`GL.Projectable`), and max_val == min_val in `valueToInner` (`Slider.DoubleSlider.SetValue`, `Slider.DoubleSlider.SetLimits`). Positions are exact reals, not `QVector3D` floats, and alpha is a real, not a float.
- 32-bit `int` overflow is not modelled in these places:
  - `max_instance - min_instance + 1`, and `new_max_instance - new_min_instance` in the spacing formula (src/dicom_viewer.cpp:215);
  - `W*H*D`;
  - the truncations of `setWindow`;
  - the conversion of `std::round`'s result to `int` in `valueToInner` (`Numeric.Round` is unbounded);
  - `w_max - w_min` in the bucket division (src/glwidget.cpp:94).

  Instance numbers themselves are kept within the `int` range.
- `k` and `current_slice` are left uninitialised by the widget's constructor, and the model's constructor says nothing about them.
- In 8-bit mode the source leaves `vol_idx` of each point uninitialised. The model uses -1 (no bucket). Switching to 16-bit mode without a rebuild would read that uninitialised value in the source.
- The rebuild order of `openDicomCollection`: the display volume is handed over before the raw volume, so in 16-bit mode the first rebuild reads the previous raw volume with the new dimensions. `GL.GLWidget.UpdateVolumicData` requires a raw volume at least as large as the display volume, which excludes that read.
- The ascending walk of the `std::map` of files is modelled as a counter running over [min_instance, max_instance] that skips absent keys. The visit order is the same.
- Viewer.InstanceLimits: picks the keys in an arbitrary order rather than ascending; the limits are independent of the order.
- Viewer.DicomViewer.UpdateVolumicData: the layers are taken as given. The VLA buffers, `delete` and `unique_ptr` hand-over are not modelled. Every decoded layer is assumed to have exactly W*H entries.
- GL.AlphaRules: requires a non-zero widget alpha. With alpha 0 a visible point is indistinguishable from a hidden one.
- Volumic.VolumicData.SetLayer: requires a non-negative layer, because the source does not check for one.
- Raw.RawData.SetLayer: requires a non-negative layer, for the same reason.
- Raw.RawWindowSpan and Viewer.DecodedOrder follow from their definitions without further proof.
- `Viewer.DicomViewer.Commit`, `Viewer.DicomViewer.CopyRawLayers`, `GL.GLWidget.ImportPoints` and `GL.GLWidget.VoxelColour` are parts of the source's single functions, split out as separate methods.
- `setProj`, the camera zoom and the slice slider updates are not part of this model.
- The tail of `openDicomCollection` after the missing-instances warning (src/dicom_viewer.cpp:255-262) is not modelled as part of `Viewer.DicomViewer.OpenDicomCollection`. It calls, in order:
  - `updateSliceSlider` and `loadDicomImage`, which are Qt and DCMTK work.
  - `updateWindowSliders`, which calls `setLimits(collection_min, collection_max)` on the centre slider and `setLimits(1.0, collection_max - collection_min)` on the width slider (lines 385-386).
  - `applyDefaultWindow`, which calls `setValue` on both sliders (lines 409-410).
  - `updateImage`, then `updateVolumicData` and `updateRawData`, which are modelled as separate methods.
- `updateWindowSliders` can call `setLimits` with min == max: the centre slider does when every voxel of the collection has one value, and the width slider does when the collection range is exactly 1. `Slider.DoubleSlider.SetLimits` excludes that case (its `valueToInner` divides by zero), so the model does not say what the sliders show then.
- GL.PositionInCube: promised only for non-negative spacings. The viewer derives a negative `slice_spacing` whenever z decreases with the instance number (src/dicom_viewer.cpp:214-215). `std::max` then ignores the z extent, and points leave the cube (`GL.NegativeSpacingLeavesCube`).
- GL.LongestAxisSpansTwo: also promised only for non-negative spacings, for the same reason.
- Viewer.ToleranceExample and the other spacing lemmas use exact reals. With doubles, an error computed as 1.0 - 1.01 exceeds 0.01 slightly; the example's inputs were chosen so that the double and the real computations agree.
