/** `RawData`: the 16-bit raw volume used for bucketing, with the window
    bounds `w_min`/`w_max` shifted into the unsigned 16-bit domain. */
module Raw {
  import opened Numeric
  import opened Layout

  /** The shift `(collec_max - collec_min)/2 + (2^15 - collec_max)`, truncated
      to an `int`. */
  function WindowOffset(collec_min: real, collec_max: real): int
  {
    Trunc((collec_max - collec_min) / 2.0 + (32768.0 - collec_max))
  }

  /** The bounds `setWindow` stores: `center - width + offset` and
      `center + width + offset`, each truncated to an `int`. Note the full
      width on each side. */
  function RawWindow(center: real, width: real, collec_min: real, collec_max: real): (int, int)
  {
    var offset := WindowOffset(collec_min, collec_max) as real;
    (Trunc(center - width + offset), Trunc(center + width + offset))
  }

  /** The offset moves the middle of the collection's value range to 2^15,
      up to the truncation of the offset. */
  lemma OffsetCentresRange(collec_min: real, collec_max: real)
    ensures -1.0 < (collec_min + collec_max) / 2.0 + WindowOffset(collec_min, collec_max) as real - 32768.0 < 1.0
  {
    var x := (collec_max - collec_min) / 2.0 + (32768.0 - collec_max);
    assert x == 32768.0 - (collec_min + collec_max) / 2.0;
  }

  /** For a non-negative width the stored bounds are ordered. */
  lemma RawWindowOrdered(center: real, width: real, collec_min: real, collec_max: real)
    requires 0.0 <= width
    ensures RawWindow(center, width, collec_min, collec_max).0 <= RawWindow(center, width, collec_min, collec_max).1
  {
    var offset := WindowOffset(collec_min, collec_max) as real;
    TruncMonotone(center - width + offset, center + width + offset);
  }

  /** The stored window is about twice the slider's width wide, where the
      8-bit path (`getWindow`) uses [center - width/2, center + width/2]. */
  lemma RawWindowSpan(center: real, width: real, collec_min: real, collec_max: real)
    ensures var (lo, hi) := RawWindow(center, width, collec_min, collec_max);
      2.0 * width - 2.0 < (hi - lo) as real < 2.0 * width + 2.0
  {
  }

  /** The worked example: center 0, width 2000 over [-1000, 1000] gives the
      offset 2^15 and the bounds 2^15 - 2000 and 2^15 + 2000. */
  lemma RawWindowExample()
    ensures WindowOffset(-1000.0, 1000.0) == 32768
    ensures RawWindow(0.0, 2000.0, -1000.0, 1000.0) == (30768, 34768)
  {
    TruncOfInt(32768);
    TruncOfInt(30768);
    TruncOfInt(34768);
  }

  class RawData {
    /** The raw voxels, in the same layout as `VolumicData`. */
    var data: array<U16>
    var width: int
    var height: int
    var depth: int
    var pixel_width: real
    var pixel_height: real
    /** An `int` field: the viewer's double spacing is truncated into it. */
    var slice_spacing: int
    var w_min: int
    var w_max: int

    /** The buffer holds exactly one entry per voxel. */
    ghost predicate Shaped()
      reads this
    {
      0 <= width && 0 <= height && 0 <= depth && data.Length == width * height * depth
    }

    /** `RawData()`: no voxels, every dimension -1; the window bounds are
        left uninitialised. */
    constructor Empty()
      ensures width == -1 && height == -1 && depth == -1
      ensures pixel_width == -1.0 && pixel_height == -1.0 && slice_spacing == 0
      ensures fresh(data) && data.Length == 0
    {
      data := new U16[0];
      width, height, depth := -1, -1, -1;
      pixel_width, pixel_height, slice_spacing := -1.0, -1.0, 0;
    }

    /** `RawData(W, H, D)`: W*H*D zeroed voxels. */
    constructor (w: int, h: int, d: int)
      requires 0 <= w && 0 <= h && 0 <= d
      ensures width == w && height == h && depth == d
      ensures Shaped() && fresh(data)
      ensures forall i :: 0 <= i < data.Length ==> data[i] == 0
    {
      data := new U16[w * h * d](_ => 0);
      width, height, depth := w, h, d;
    }

    /** The copy constructor copies the voxels, dimensions and spacings but
        not `w_min`/`w_max`, about which its contract says nothing. */
    constructor Copy(other: RawData)
      ensures fresh(data) && data[..] == other.data[..]
      ensures width == other.width && height == other.height && depth == other.depth
      ensures pixel_width == other.pixel_width && pixel_height == other.pixel_height
      ensures slice_spacing == other.slice_spacing
    {
      var src := other.data[..];
      data := new U16[|src|](i requires 0 <= i < |src| => src[i]);
      width, height, depth := other.width, other.height, other.depth;
      pixel_width, pixel_height := other.pixel_width, other.pixel_height;
      slice_spacing := other.slice_spacing;
    }

    /** `getValue`: the raw voxel at (col, row, layer). */
    function GetValue(col: int, row: int, layer: int): (v: U16)
      reads this, data
      requires Shaped() && InVolume(width, height, depth, col, row, layer)
      ensures 0 <= Index(width, height, col, row, layer) < data.Length
      ensures v == data[Index(width, height, col, row, layer)]
    {
      IndexBounds(width, height, depth, col, row, layer);
      data[Index(width, height, col, row, layer)]
    }

    /** `setWindow`: stores the shifted window bounds. */
    method SetWindow(window_center: real, window_width: real, collec_min: real, collec_max: real)
      modifies this`w_min, this`w_max
      ensures (w_min, w_max) == RawWindow(window_center, window_width, collec_min, collec_max)
    {
      var min := window_center - window_width;
      var max := window_center + window_width;
      var offset := Trunc((collec_max - collec_min) / 2.0 + (32768.0 - collec_max));
      w_min := Trunc(min + offset as real);
      w_max := Trunc(max + offset as real);
    }

    /** `setLayer`: copies one W*H layer into the volume, in place; a layer at
        or beyond `depth` throws `out_of_range` and changes nothing. */
    method SetLayer(layer_data: seq<U16>, layer: int) returns (r: LayerResult)
      requires Shaped() && 0 <= layer && |layer_data| == width * height
      modifies data
      ensures Shaped()
      ensures r == if layer < depth then Written else OutOfRange(layer, depth)
      ensures r.OutOfRange? ==> data[..] == old(data[..])
      ensures r.Written? ==> BlockWritten(old(data[..]), data[..], layer_data, width * height * layer)
      ensures r.Written? ==> forall col, row, l :: InVolume(width, height, depth, col, row, l) ==>
        0 <= col + row * width < |layer_data| &&
        GetValue(col, row, l) == if l == layer then layer_data[col + row * width] else old(GetValue(col, row, l))
    {
      if layer >= depth {
        return OutOfRange(layer, depth);
      }
      var offset := width * height * layer;
      LayerBlockInBuffer(width, height, depth, layer);
      CopyBlock(data, layer_data, offset);
      forall col, row, l | InVolume(width, height, depth, col, row, l)
        ensures 0 <= col + row * width < |layer_data| &&
          GetValue(col, row, l) == if l == layer then layer_data[col + row * width] else old(GetValue(col, row, l))
      {
        LayerReadBack(old(data[..]), data[..], layer_data, width, height, depth, layer, col, row, l);
      }
      return Written;
    }
  }
}
