/** `VolumicData`: the 8-bit display volume, one windowed byte per voxel in a
    flat buffer laid out as in module Layout. */
module Volumic {
  import opened Numeric
  import opened Layout

  class VolumicData {
    /** The voxels, column by column, line by line, slice by slice. */
    var data: array<Byte>
    var width: int
    var height: int
    var depth: int
    /** Physical voxel size in mm. */
    var pixel_width: real
    var pixel_height: real
    var slice_spacing: real

    /** The buffer holds exactly one entry per voxel. */
    ghost predicate Shaped()
      reads this
    {
      0 <= width && 0 <= height && 0 <= depth && data.Length == width * height * depth
    }

    /** `VolumicData()`: no voxels, every dimension -1. */
    constructor Empty()
      ensures width == -1 && height == -1 && depth == -1
      ensures pixel_width == -1.0 && pixel_height == -1.0 && slice_spacing == 0.0
      ensures fresh(data) && data.Length == 0
    {
      data := new Byte[0];
      width, height, depth := -1, -1, -1;
      pixel_width, pixel_height, slice_spacing := -1.0, -1.0, 0.0;
    }

    /** `VolumicData(W, H, D)`: W*H*D zeroed voxels; the source leaves the
        spacings uninitialised, so the contract says nothing about them. */
    constructor (w: int, h: int, d: int)
      requires 0 <= w && 0 <= h && 0 <= d
      ensures width == w && height == h && depth == d
      ensures Shaped() && fresh(data)
      ensures forall i :: 0 <= i < data.Length ==> data[i] == 0
    {
      data := new Byte[w * h * d](_ => 0);
      width, height, depth := w, h, d;
    }

    /** The copy constructor: a fresh buffer with the same voxels, the same
        dimensions and the same three spacings. */
    constructor Copy(other: VolumicData)
      ensures fresh(data) && data[..] == other.data[..]
      ensures width == other.width && height == other.height && depth == other.depth
      ensures pixel_width == other.pixel_width && pixel_height == other.pixel_height
      ensures slice_spacing == other.slice_spacing
    {
      var src := other.data[..];
      data := new Byte[|src|](i requires 0 <= i < |src| => src[i]);
      width, height, depth := other.width, other.height, other.depth;
      pixel_width, pixel_height := other.pixel_width, other.pixel_height;
      slice_spacing := other.slice_spacing;
    }

    /** `getValue`: the voxel at (col, row, layer). */
    function GetValue(col: int, row: int, layer: int): (v: Byte)
      reads this, data
      requires Shaped() && InVolume(width, height, depth, col, row, layer)
      ensures 0 <= Index(width, height, col, row, layer) < data.Length
      ensures v == data[Index(width, height, col, row, layer)]
    {
      IndexBounds(width, height, depth, col, row, layer);
      data[Index(width, height, col, row, layer)]
    }

    /** `setLayer`: copies one W*H layer into the volume, in place. A layer at
        or beyond `depth` throws `out_of_range` and changes nothing; the source
        does not check for negative layers. */
    method SetLayer(layer_data: seq<Byte>, layer: int) returns (r: LayerResult)
      requires Shaped() && 0 <= layer && |layer_data| == width * height
      modifies data
      ensures Shaped()
      ensures r == if layer < depth then Written else OutOfRange(layer, depth)
      ensures r.OutOfRange? ==> data[..] == old(data[..])
      ensures r.Written? ==> BlockWritten(old(data[..]), data[..], layer_data, width * height * layer)
      ensures r.Written? ==> forall col, row, l :: InVolume(width, height, depth, col, row, l) ==>
        0 <= col + row * width < |layer_data| &&
        GetValue(col, row, l) == if l == layer then layer_data[col + row * width] else old(GetValue(col, row, l))
    {
      if layer >= depth {
        return OutOfRange(layer, depth);
      }
      var offset := width * height * layer;
      LayerBlockInBuffer(width, height, depth, layer);
      CopyBlock(data, layer_data, offset);
      forall col, row, l | InVolume(width, height, depth, col, row, l)
        ensures 0 <= col + row * width < |layer_data| &&
          GetValue(col, row, l) == if l == layer then layer_data[col + row * width] else old(GetValue(col, row, l))
      {
        LayerReadBack(old(data[..]), data[..], layer_data, width, height, depth, layer, col, row, l);
      }
      return Written;
    }
  }
}
