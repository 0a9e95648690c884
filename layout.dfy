/** The memory layout shared by `VolumicData` and `RawData`: a W*H*D volume
    stored as one flat buffer, column by column, then row by row, then layer
    by layer, so that voxel (col, row, layer) sits at
    `col + row*W + layer*W*H`. */
module Layout {

  /** The linear index the source computes in `getValue`. */
  function Index(w: int, h: int, col: int, row: int, layer: int): int
  {
    col + row * w + layer * w * h
  }

  /** The coordinates of a voxel of a w*h*d volume. */
  predicate InVolume(w: int, h: int, d: int, col: int, row: int, layer: int)
  {
    0 <= col < w && 0 <= row < h && 0 <= layer < d
  }

  /** What `setLayer` returns: the source either copies the layer or throws
      `std::out_of_range`. */
  datatype LayerResult = Written | OutOfRange(layer: int, depth: int)

  lemma MulMonotone(a: int, b: int, c: int)
    requires a <= b && 0 <= c
    ensures a * c <= b * c
  {
    assert b * c - a * c == (b - a) * c;
  }

  /** Euclidean division is determined by any quotient/remainder pair. */
  lemma {:induction false} DivModUnique(x: int, n: int, q: int, rem: int)
    requires 0 < n && 0 <= rem < n && x == q * n + rem
    ensures x / n == q && x % n == rem
  {
    var q', r' := x / n, x % n;
    assert x == q' * n + r';
    if q' < q {
      MulMonotone(q' + 1, q, n);
      assert false;
    } else if q < q' {
      MulMonotone(q + 1, q', n);
      assert false;
    }
  }

  /** Inside one layer the offset `col + row*w` stays below `w*h`. */
  lemma InLayerOffset(w: int, h: int, col: int, row: int)
    requires 0 <= col < w && 0 <= row < h
    ensures 0 <= col + row * w < w * h
  {
    MulMonotone(row + 1, h, w);
    assert 0 <= row * w;
  }

  /** Voxel (col, row, layer) lies in the block of layer `layer`:
      [layer*w*h, (layer+1)*w*h), at offset `col + row*w` within it. */
  lemma IndexInLayer(w: int, h: int, col: int, row: int, layer: int)
    requires 0 <= col < w && 0 <= row < h
    ensures Index(w, h, col, row, layer) == w * h * layer + (col + row * w)
    ensures w * h * layer <= Index(w, h, col, row, layer) < w * h * layer + w * h
  {
    InLayerOffset(w, h, col, row);
    assert layer * w * h == w * h * layer;
  }

  /** Every voxel of a w*h*d volume has an index in [0, w*h*d). */
  lemma IndexBounds(w: int, h: int, d: int, col: int, row: int, layer: int)
    requires InVolume(w, h, d, col, row, layer)
    ensures 0 <= Index(w, h, col, row, layer) < w * h * d
  {
    IndexInLayer(w, h, col, row, layer);
    assert 0 <= w * h;
    assert 0 <= w * h * layer by { MulMonotone(0, layer, w * h); }
    assert w * h * layer + w * h == w * h * (layer + 1);
    assert w * h * (layer + 1) <= w * h * d by {
      MulMonotone(layer + 1, d, w * h);
    }
  }

  /** The two ways of grouping `col + row*w + layer*w*h`. */
  lemma Regroup(w: int, h: int, col: int, row: int, layer: int)
    ensures Index(w, h, col, row, layer) == (row + layer * h) * w + col
    ensures Index(w, h, col, row, layer) == layer * (w * h) + (col + row * w)
  {
    assert layer * w * h == layer * (w * h) == (layer * h) * w;
    assert (row + layer * h) * w == row * w + (layer * h) * w;
  }

  /** The index of a voxel gives back its coordinates: column `i % w`, row
      `(i / w) % h`, layer `i / (w*h)`. */
  lemma {:induction false} DecomposeIndex(w: int, h: int, col: int, row: int, layer: int)
    requires 0 <= col < w && 0 <= row < h
    ensures var i := Index(w, h, col, row, layer);
      i % w == col && (i / w) % h == row && i / (w * h) == layer
  {
    var i := Index(w, h, col, row, layer);
    Regroup(w, h, col, row, layer);
    DivModUnique(i, w, row + layer * h, col);
    DivModUnique(row + layer * h, h, layer, row);
    InLayerOffset(w, h, col, row);
    DivModUnique(i, w * h, layer, col + row * w);
  }

  /** Distinct voxels have distinct indices. */
  lemma IndexInjective(w: int, h: int, c0: int, r0: int, l0: int, c1: int, r1: int, l1: int)
    requires 0 <= c0 < w && 0 <= r0 < h && 0 <= c1 < w && 0 <= r1 < h
    requires Index(w, h, c0, r0, l0) == Index(w, h, c1, r1, l1)
    ensures c0 == c1 && r0 == r1 && l0 == l1
  {
    DecomposeIndex(w, h, c0, r0, l0);
    DecomposeIndex(w, h, c1, r1, l1);
  }

  /** Every index of a w*h*d buffer is the index of exactly the voxel
      (i % w, (i / w) % h, i / (w*h)). */
  lemma {:induction false} IndexSurjective(w: int, h: int, d: int, i: int)
    requires 1 <= w && 1 <= h && 0 <= i < w * h * d
    ensures InVolume(w, h, d, i % w, (i / w) % h, i / (w * h))
    ensures Index(w, h, i % w, (i / w) % h, i / (w * h)) == i
  {
    var col, q := i % w, i / w;
    var row, layer := q % h, q / h;
    assert 0 <= layer by { assert 0 <= q; }
    InLayerOffset(w, h, col, row);
    assert i == layer * (w * h) + (col + row * w) by {
      assert i == q * w + col;
      assert q == row + layer * h;
      Regroup(w, h, col, row, layer);
    }
    DivModUnique(i, w * h, layer, col + row * w);
    assert layer < d by {
      assert w * h * d == d * (w * h);
      if d <= layer {
        MulMonotone(d, layer, w * h);
        assert false;
      }
    }
    Regroup(w, h, col, row, layer);
  }

  /** Stepping the column/row/layer counters as the projection loop does
      (column first, wrapping into the next row, wrapping into the next
      layer) moves from the voxel of index i to the voxel of index i + 1. */
  lemma {:induction false} NextVoxel(w: int, h: int, i: int)
    requires 1 <= w && 1 <= h && 0 <= i
    ensures var col, row, layer := i % w, (i / w) % h, i / (w * h);
      var row1 := if col + 1 == w then row + 1 else row;
      && (i + 1) % w == (if col + 1 == w then 0 else col + 1)
      && ((i + 1) / w) % h == (if row1 == h then 0 else row1)
      && (i + 1) / (w * h) == (if row1 == h then layer + 1 else layer)
  {
    var col, row, layer := i % w, (i / w) % h, i / (w * h);
    MulMonotone(1, h, w);
    assert i < w * h * (layer + 1) by {
      assert i == (w * h) * layer + i % (w * h);
      assert (w * h) * layer + w * h == w * h * (layer + 1);
    }
    IndexSurjective(w, h, layer + 1, i);
    assert i == col + row * w + layer * w * h;
    if col + 1 < w {
      DecomposeIndex(w, h, col + 1, row, layer);
    } else if row + 1 < h {
      assert i + 1 == Index(w, h, 0, row + 1, layer) by {
        assert (row + 1) * w == row * w + w;
      }
      DecomposeIndex(w, h, 0, row + 1, layer);
    } else {
      assert i + 1 == Index(w, h, 0, 0, layer + 1) by {
        assert (row + 1) * w == w * h;
        assert (layer + 1) * w * h == layer * w * h + w * h;
      }
      DecomposeIndex(w, h, 0, 0, layer + 1);
    }
  }

  /** A volume with at least one voxel has positive width and height. */
  lemma NonEmptyVolume(w: int, h: int, d: int)
    requires 0 <= w && 0 <= h && 0 <= d && 0 < w * h * d
    ensures 1 <= w && 1 <= h && 1 <= d && 1 <= w * h
  {
  }

  /** Layer `layer` of a w*h*d buffer occupies [w*h*layer, w*h*layer + w*h). */
  lemma LayerBlockInBuffer(w: int, h: int, d: int, layer: int)
    requires 0 <= w && 0 <= h && 0 <= layer < d
    ensures 0 <= w * h * layer
    ensures w * h * layer + w * h <= w * h * d
  {
    assert 0 <= w * h;
    MulMonotone(0, layer, w * h);
    MulMonotone(layer + 1, d, w * h);
    assert (layer + 1) * (w * h) == w * h * layer + w * h;
  }

  /** Offset `o` of block `l` (blocks of size n) lies in block `layer`
      exactly when l == layer. */
  lemma {:induction false} InBlockIff(n: int, l: int, layer: int, o: int)
    requires 0 <= o < n
    ensures n * layer <= n * l + o < n * layer + n <==> l == layer
  {
    if l < layer {
      MulMonotone(l + 1, layer, n);
      assert (l + 1) * n == n * l + n;
      assert layer * n == n * layer;
    } else if layer < l {
      MulMonotone(layer + 1, l, n);
      assert (layer + 1) * n == n * layer + n;
      assert l * n == n * l;
    }
  }

  /** `after` is `before` with the block [offset, offset + |src|) replaced by `src`. */
  ghost predicate BlockWritten<T>(before: seq<T>, after: seq<T>, src: seq<T>, offset: int)
  {
    |after| == |before| &&
    forall j :: 0 <= j < |after| ==>
      after[j] == if offset <= j < offset + |src| then src[j - offset] else before[j]
  }

  /** The copy loop of `setLayer`, shared by both volume classes: element i
      of `src` goes to `a[i + offset]`, and nothing else changes. */
  method CopyBlock<T>(a: array<T>, src: seq<T>, offset: int)
    requires 0 <= offset && offset + |src| <= a.Length
    modifies a
    ensures BlockWritten(old(a[..]), a[..], src, offset)
  {
    var i := 0;
    while i < |src|
      invariant 0 <= i <= |src|
      invariant forall j :: 0 <= j < a.Length ==>
        a[j] == if offset <= j < offset + i then src[j - offset] else old(a[j])
    {
      a[i + offset] := src[i];
      i := i + 1;
    }
  }

  /** Reading a volume back after one layer was written: the written layer
      shows the source layer, every other layer is as it was. */
  lemma LayerReadBack<T>(before: seq<T>, after: seq<T>, src: seq<T>, w: int, h: int, d: int,
                         layer: int, col: int, row: int, l: int)
    requires 0 <= w && 0 <= h && 0 <= layer < d && |before| == w * h * d && |src| == w * h
    requires BlockWritten(before, after, src, w * h * layer)
    requires InVolume(w, h, d, col, row, l)
    ensures 0 <= Index(w, h, col, row, l) < |after|
    ensures 0 <= col + row * w < |src|
    ensures after[Index(w, h, col, row, l)] ==
      if l == layer then src[col + row * w] else before[Index(w, h, col, row, l)]
  {
    IndexBounds(w, h, d, col, row, l);
    IndexInLayer(w, h, col, row, l);
    InLayerOffset(w, h, col, row);
    InBlockIff(w * h, l, layer, col + row * w);
  }
}
