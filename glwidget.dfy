/** `GLWidget`: turns the display volume into one drawable point per voxel
    (`updateDisplayPoints`) and decides, point by point, whether `paintGL`
    draws it, with which alpha, and in which colour (`getColor`). The OpenGL
    calls themselves are replaced by the list of vertices they would emit. */
module GL {
  import opened Numeric
  import opened Layout
  import opened Volumic
  import opened Raw

  datatype Vec3 = Vec3(x: real, y: real, z: real)

  /** `DrawablePoint`: position, layer, grey level (8-bit) or normalised raw
      value (16-bit), and bucket index, -1 meaning "no bucket". */
  datatype DrawablePoint = DrawablePoint(pos: Vec3, depth: int, c: real, vol_idx: int)

  /** The shape and the physical voxel size of the display volume. */
  datatype Geometry = Geometry(w: int, h: int, d: int, pixel_width: real, pixel_height: real, slice_spacing: real)

  /** How `updateDisplayPoints` fills `c` and `vol_idx`: grey levels from the
      8-bit volume, or buckets of the raw volume's window `[w_min, w_max]`. */
  datatype Encoding = Grey | Buckets(raw: seq<U16>, w_min: int, w_max: int, k: int)

  /** A `glColor4f` colour. */
  datatype Rgba = Rgba(r: real, g: real, b: real, a: real)

  /** The fields of the widget that `paintGL` reads besides the points. */
  datatype View = View(alpha: real, hide_empty_points: bool, highlight: bool, hide_above: bool,
                       hide_below: bool, change_bit_encode: bool, current_slice: int)

  /** A `glVertex3d` call, in the GL colour current when it is issued. */
  datatype Vertex = Vertex(pos: Vec3, colour: Rgba)

  /** The 8-bit grey level of a display voxel. */
  function GreyLevel(b: Byte): (c: real)
    ensures 0.0 <= c <= 1.0
    ensures c * 255.0 == b as real
  {
    b as real / 255.0
  }

  /** The 16-bit classification of raw value `v`: below the window, no bucket
      and c = 0; exactly `w_max`, bucket k and c = 1; above it, no bucket and
      c = 1; inside [w_min, w_max), c is the position in the window and the
      bucket is floor(k * c). */
  function Bucket(v: int, w_min: int, w_max: int, k: int): (r: (real, int))
    ensures v < w_min ==> r == (0.0, -1)
    ensures w_min <= v && w_max <= v ==> r == (1.0, if v == w_max then k else -1)
    ensures w_min <= v < w_max ==> 0.0 <= r.0 < 1.0 && (1 <= k ==> 0 <= r.1 < k)
  {
    if v < w_min then (0.0, -1)
    else if v >= w_max then (1.0, if v == w_max then k else -1)
    else
      var c := (v - w_min) as real / (w_max - w_min) as real;
      WindowFraction(v - w_min, w_max - w_min);
      FloorScaled(k, c);
      (c, (k as real * c).Floor)
  }

  /** The position of a value inside a window of width `span` lies in [0, 1). */
  lemma WindowFraction(x: int, span: int)
    requires 0 <= x < span
    ensures 0.0 <= x as real / span as real < 1.0
  {
    var c := x as real / span as real;
    assert c * span as real == x as real;
  }

  /** k buckets over [0, 1): floor(k * c) is one of 0..k-1. */
  lemma FloorScaled(k: int, c: real)
    requires 0.0 <= c < 1.0
    ensures 1 <= k ==> 0 <= (k as real * c).Floor < k
  {
    if 1 <= k {
      assert k as real * c < k as real * 1.0;
    }
  }

  /** Higher raw values inside the window fall in the same or a higher
      bucket. */
  lemma BucketMonotone(v: int, v': int, w_min: int, w_max: int, k: int)
    requires w_min <= v <= v' < w_max && 0 <= k
    ensures Bucket(v, w_min, w_max, k).0 <= Bucket(v', w_min, w_max, k).0
    ensures Bucket(v, w_min, w_max, k).1 <= Bucket(v', w_min, w_max, k).1
  {
    var span := (w_max - w_min) as real;
    var c, c' := (v - w_min) as real / span, (v' - w_min) as real / span;
    assert Bucket(v, w_min, w_max, k).0 == c && Bucket(v', w_min, w_max, k).0 == c';
    assert Bucket(v, w_min, w_max, k).1 == (k as real * c).Floor;
    assert Bucket(v', w_min, w_max, k).1 == (k as real * c').Floor;
    assert c' - c == (v' - v) as real / span;
    assert k as real * c' - k as real * c == k as real * (c' - c);
  }

  /** Every classification is either "no bucket" or a bucket in 0..k, with
      c in [0, 1]. */
  lemma BucketRange(v: int, w_min: int, w_max: int, k: int)
    requires 1 <= k
    ensures var (c, vol_idx) := Bucket(v, w_min, w_max, k);
      0.0 <= c <= 1.0 && (vol_idx == -1 || 0 <= vol_idx <= k)
  {
  }

  /** The window of the worked `setWindow` example, [30768, 34768], with six
      buckets: the lower edge opens bucket 0, the middle value 2^15 lands in
      bucket 3, the upper edge gets bucket 6, and one past it no bucket. */
  lemma BucketExample()
    ensures Bucket(30767, 30768, 34768, 6) == (0.0, -1)
    ensures Bucket(30768, 30768, 34768, 6) == (0.0, 0)
    ensures Bucket(32768, 30768, 34768, 6) == (0.5, 3)
    ensures Bucket(34768, 30768, 34768, 6) == (1.0, 6)
    ensures Bucket(34769, 30768, 34768, 6) == (1.0, -1)
  {
    assert 2000.0 / 4000.0 == 0.5;
    assert (6.0 * 0.5).Floor == 3;
  }

  /** The largest physical extent of the volume. */
  function MaxSize(g: Geometry): real
  {
    Max(Max(g.pixel_width * g.w as real, g.pixel_height * g.h as real), g.slice_spacing * g.d as real)
  }

  /** The three axis factors: each spacing times 2 / MaxSize. */
  function Factors(g: Geometry): Vec3
    requires MaxSize(g) != 0.0
  {
    var global_factor := 2.0 / MaxSize(g);
    Vec3(g.pixel_width * global_factor, g.pixel_height * global_factor, g.slice_spacing * global_factor)
  }

  /** The coordinate of index `i` on an axis of `dim` voxels, centred on the
      floating half-extent `dim / 2`. */
  function Centred(i: int, dim: int, factor: real): real
  {
    (i as real - dim as real / 2.0) * factor
  }

  /** The position of voxel (col, row, layer). */
  function Position(g: Geometry, col: int, row: int, layer: int): Vec3
    requires MaxSize(g) != 0.0
  {
    var f := Factors(g);
    Vec3(Centred(col, g.w, f.x), Centred(row, g.h, f.y), Centred(layer, g.d, f.z))
  }

  /** On an axis whose extent `s * dim` is at most the largest extent `m`,
      every centred coordinate lies in [-1, 1]. */
  lemma CentredInUnit(i: int, dim: int, s: real, m: real)
    requires 0 <= i < dim && 0.0 <= s && 0.0 < m && s * dim as real <= m
    ensures -1.0 <= Centred(i, dim, s * (2.0 / m)) <= 1.0
  {
    var e := i as real - dim as real / 2.0;
    assert -(dim as real) <= 2.0 * e <= dim as real;
    assert -(s * dim as real) <= 2.0 * e * s <= s * dim as real;
    assert Centred(i, dim, s * (2.0 / m)) == 2.0 * e * s / m;
    assert -m <= 2.0 * e * s <= m;
  }

  /** Scaling an axis extent `s * dim` by 2 / m gives at most 2, and exactly
      2 on the axis that realises m. */
  lemma AxisSpan(dim: int, s: real, m: real)
    requires 0 <= dim && 0.0 <= s && 0.0 < m && s * dim as real <= m
    ensures s * (2.0 / m) * dim as real <= 2.0
    ensures s * (2.0 / m) * dim as real == 2.0 <==> s * dim as real == m
  {
    assert s * (2.0 / m) * dim as real == 2.0 * (s * dim as real) / m;
  }

  /** With non-negative spacings every point of the volume lies in the cube
      [-1, 1]^3. */
  lemma PositionInCube(g: Geometry, col: int, row: int, layer: int)
    requires 0.0 <= g.pixel_width && 0.0 <= g.pixel_height && 0.0 <= g.slice_spacing && MaxSize(g) > 0.0
    requires InVolume(g.w, g.h, g.d, col, row, layer)
    ensures var p := Position(g, col, row, layer);
      -1.0 <= p.x <= 1.0 && -1.0 <= p.y <= 1.0 && -1.0 <= p.z <= 1.0
  {
    var m := MaxSize(g);
    CentredInUnit(col, g.w, g.pixel_width, m);
    CentredInUnit(row, g.h, g.pixel_height, m);
    CentredInUnit(layer, g.d, g.slice_spacing, m);
  }

  /** The longest axis spans exactly 2 (the whole cube), the others at most 2. */
  lemma LongestAxisSpansTwo(g: Geometry)
    requires 0 <= g.w && 0 <= g.h && 0 <= g.d
    requires 0.0 <= g.pixel_width && 0.0 <= g.pixel_height && 0.0 <= g.slice_spacing && MaxSize(g) > 0.0
    ensures var f := Factors(g);
      && f.x * g.w as real <= 2.0 && f.y * g.h as real <= 2.0 && f.z * g.d as real <= 2.0
      && (f.x * g.w as real == 2.0 || f.y * g.h as real == 2.0 || f.z * g.d as real == 2.0)
  {
    var m := MaxSize(g);
    AxisSpan(g.w, g.pixel_width, m);
    AxisSpan(g.h, g.pixel_height, m);
    AxisSpan(g.d, g.slice_spacing, m);
  }

  /** With a negative slice spacing, which the viewer derives whenever z
      decreases with the instance number, the z extent drops out of the
      largest extent and points leave the cube: ten layers of spacing -1
      under 1 x 1 pixels put layer 0 at z = 10. */
  lemma NegativeSpacingLeavesCube()
    ensures var g := Geometry(1, 1, 10, 1.0, 1.0, -1.0);
      MaxSize(g) == 1.0 && Position(g, 0, 0, 0).z == 10.0
  {
    var g := Geometry(1, 1, 10, 1.0, 1.0, -1.0);
    assert MaxSize(g) == 1.0;
    assert Factors(g).z == -2.0;
  }

  /** The inputs for which the projection is defined: a shaped volume, a
      non-zero largest extent, and enough raw voxels in 16-bit mode. */
  predicate Projectable(g: Geometry, vol: seq<Byte>, enc: Encoding)
  {
    0 <= g.w && 0 <= g.h && 0 <= g.d && |vol| == g.w * g.h * g.d && MaxSize(g) != 0.0 &&
    (enc.Buckets? ==> g.w * g.h * g.d <= |enc.raw|)
  }

  /** The point of voxel `idx` under axis factors `f`: its coordinates
      decomposed from the linear index, centred and scaled, and its colour
      data. */
  function PointWith(f: Vec3, w: int, h: int, d: int, vol: seq<Byte>, enc: Encoding, idx: int): DrawablePoint
    requires 1 <= w && 1 <= h && 0 <= idx < |vol| && (enc.Buckets? ==> idx < |enc.raw|)
  {
    var col, row, depth := idx % w, (idx / w) % h, idx / (w * h);
    var (c, vol_idx) := VoxelData(vol, enc, idx);
    DrawablePoint(Vec3(Centred(col, w, f.x), Centred(row, h, f.y), Centred(depth, d, f.z)), depth, c, vol_idx)
  }

  /** The point of voxel `idx` of a volume. */
  function PointAt(g: Geometry, vol: seq<Byte>, enc: Encoding, idx: int): DrawablePoint
    requires Projectable(g, vol, enc) && 1 <= g.w && 1 <= g.h && 0 <= idx < |vol|
  {
    PointWith(Factors(g), g.w, g.h, g.d, vol, enc, idx)
  }

  /** The colour data of voxel `idx`: its grey level, or its bucket. */
  function VoxelData(vol: seq<Byte>, enc: Encoding, idx: int): (real, int)
    requires 0 <= idx < |vol| && (enc.Buckets? ==> idx < |enc.raw|)
  {
    if enc.Grey? then (GreyLevel(vol[idx]), -1) else Bucket(enc.raw[idx], enc.w_min, enc.w_max, enc.k)
  }

  /** The point list of a volume: the point of every voxel, in buffer order. */
  function Projection(g: Geometry, vol: seq<Byte>, enc: Encoding): (ps: seq<DrawablePoint>)
    requires Projectable(g, vol, enc)
    ensures |ps| == g.w * g.h * g.d
  {
    if |vol| == 0 then []
    else
      NonEmptyVolume(g.w, g.h, g.d);
      seq(|vol|, idx requires 0 <= idx < |vol| => PointAt(g, vol, enc, idx))
  }

  /** Voxel (col, row, layer) appears at position `col + row*W + layer*W*H` of
      the list, at its centred position, on its layer, with the colour data of
      that voxel. */
  lemma ProjectionAt(g: Geometry, vol: seq<Byte>, enc: Encoding, col: int, row: int, layer: int)
    requires Projectable(g, vol, enc) && InVolume(g.w, g.h, g.d, col, row, layer)
    ensures var i := Index(g.w, g.h, col, row, layer);
      && 0 <= i < |Projection(g, vol, enc)|
      && Projection(g, vol, enc)[i] ==
           DrawablePoint(Position(g, col, row, layer), layer,
                         if enc.Grey? then GreyLevel(vol[i]) else Bucket(enc.raw[i], enc.w_min, enc.w_max, enc.k).0,
                         if enc.Grey? then -1 else Bucket(enc.raw[i], enc.w_min, enc.w_max, enc.k).1)
  {
    IndexBounds(g.w, g.h, g.d, col, row, layer);
    DecomposeIndex(g.w, g.h, col, row, layer);
  }

  /** Every point carries a colour value in [0, 1]; in 8-bit mode no bucket,
      in 16-bit mode with k >= 1 no bucket or a bucket in 0..k. */
  lemma ProjectionValues(g: Geometry, vol: seq<Byte>, enc: Encoding, i: int)
    requires Projectable(g, vol, enc) && 0 <= i < |Projection(g, vol, enc)|
    ensures var p := Projection(g, vol, enc)[i];
      && 0.0 <= p.c <= 1.0
      && (enc.Grey? ==> p.vol_idx == -1)
      && (enc.Buckets? && 1 <= enc.k ==> p.vol_idx == -1 || 0 <= p.vol_idx <= enc.k)
  {
    if enc.Buckets? && 1 <= enc.k {
      BucketRange(enc.raw[i], enc.w_min, enc.w_max, enc.k);
    }
  }

  /** The `paintGL` filter: None when the point is skipped (16-bit mode, no
      bucket), otherwise the alpha it is drawn with. Hiding wins over
      highlighting. */
  function PointAlpha(p: DrawablePoint, v: View): (r: Option<real>)
    ensures r.Some? <==> !v.change_bit_encode || p.vol_idx != -1
  {
    if p.vol_idx != -1 || !v.change_bit_encode then
      if (v.hide_empty_points && p.c == 0.0) ||
         (v.hide_above && p.depth > v.current_slice) ||
         (v.hide_below && p.depth < v.current_slice)
      then Some(0.0)
      else if v.highlight && p.depth == v.current_slice then Some(1.0)
      else Some(v.alpha)
    else None
  }

  /** An emitted point is drawn transparent exactly when one of the three
      hiding rules applies, whether or not it is on the highlighted slice;
      otherwise it is opaque on the highlighted slice and uses the widget's
      alpha elsewhere. */
  lemma AlphaRules(p: DrawablePoint, v: View)
    requires !v.change_bit_encode || p.vol_idx != -1
    requires v.alpha != 0.0
    ensures var hidden := (v.hide_empty_points && p.c == 0.0) ||
                          (v.hide_above && p.depth > v.current_slice) ||
                          (v.hide_below && p.depth < v.current_slice);
      && (PointAlpha(p, v) == Some(0.0) <==> hidden)
      && (!hidden && v.highlight && p.depth == v.current_slice ==> PointAlpha(p, v) == Some(1.0))
      && (!hidden && !(v.highlight && p.depth == v.current_slice) ==> PointAlpha(p, v) == Some(v.alpha))
  {
  }

  /** Hiding above and below the current slice leaves only that slice
      visible. */
  lemma SliceIsolation(p: DrawablePoint, v: View)
    requires v.hide_above && v.hide_below && p.depth != v.current_slice
    ensures PointAlpha(p, v) == None || PointAlpha(p, v) == Some(0.0)
  {
  }

  /** `getColor`: in 16-bit mode buckets 0..6 are red, green, blue, yellow,
      magenta, cyan and white and any other index sets no colour; in 8-bit
      mode the colour is the grey (c, c, c). */
  function Colour(p: DrawablePoint, alpha: real, change_bit_encode: bool): (r: Option<Rgba>)
    ensures r.Some? ==> r.value.a == alpha
    ensures change_bit_encode ==> (r.Some? <==> 0 <= p.vol_idx <= 6)
    ensures !change_bit_encode ==> r == Some(Rgba(p.c, p.c, p.c, alpha))
  {
    if change_bit_encode then
      match p.vol_idx
      case 0 => Some(Rgba(1.0, 0.0, 0.0, alpha))
      case 1 => Some(Rgba(0.0, 1.0, 0.0, alpha))
      case 2 => Some(Rgba(0.0, 0.0, 1.0, alpha))
      case 3 => Some(Rgba(1.0, 1.0, 0.0, alpha))
      case 4 => Some(Rgba(1.0, 0.0, 1.0, alpha))
      case 5 => Some(Rgba(0.0, 1.0, 1.0, alpha))
      case 6 => Some(Rgba(1.0, 1.0, 1.0, alpha))
      case _ => None
    else
      Some(Rgba(p.c, p.c, p.c, alpha))
  }

  /** The seven bucket colours are pairwise distinct. */
  lemma PaletteDistinct(p: DrawablePoint, q: DrawablePoint, alpha: real)
    requires 0 <= p.vol_idx <= 6 && 0 <= q.vol_idx <= 6 && p.vol_idx != q.vol_idx
    ensures Colour(p, alpha, true) != Colour(q, alpha, true)
  {
  }

  /** With at most six buckets, every point the filter emits in 16-bit mode
      gets a colour of its own; with more, the top buckets get none. */
  lemma PaletteCoversBuckets(v: int, w_min: int, w_max: int, k: int, pos: Vec3, depth: int, alpha: real)
    requires 1 <= k
    ensures var (c, vol_idx) := Bucket(v, w_min, w_max, k);
      vol_idx != -1 ==>
        (Colour(DrawablePoint(pos, depth, c, vol_idx), alpha, true).Some? <==> vol_idx <= 6)
    ensures k <= 6 ==> var (c, vol_idx) := Bucket(v, w_min, w_max, k);
      vol_idx != -1 ==> Colour(DrawablePoint(pos, depth, c, vol_idx), alpha, true).Some?
  {
    BucketRange(v, w_min, w_max, k);
  }

  /** What `paintGL` draws from a point list, starting from GL colour `pen`:
      one vertex per emitted point, in list order, in the colour `getColor`
      set for it or, when it set none, the colour left by earlier points;
      also the colour current at the end. */
  function Render(points: seq<DrawablePoint>, v: View, pen: Rgba): (r: (seq<Vertex>, Rgba))
    decreases |points|
  {
    if points == [] then ([], pen)
    else
      var (drawn, current) := Render(points[..|points| - 1], v, pen);
      var p := points[|points| - 1];
      match PointAlpha(p, v)
      case None => (drawn, current)
      case Some(a) =>
        var colour := match Colour(p, a, v.change_bit_encode) case Some(c) => c case None => current;
        (drawn + [Vertex(p.pos, colour)], colour)
  }

  /** The points the filter emits, in list order. */
  function Emitted(points: seq<DrawablePoint>, v: View): (r: seq<DrawablePoint>)
    ensures |r| <= |points|
  {
    if points == [] then []
    else
      var rest := Emitted(points[..|points| - 1], v);
      if PointAlpha(points[|points| - 1], v).Some? then rest + [points[|points| - 1]] else rest
  }

  /** The filter distributes over concatenation, so it keeps the emitted
      points in their list order. */
  lemma {:induction false} EmittedConcat(a: seq<DrawablePoint>, b: seq<DrawablePoint>, v: View)
    ensures Emitted(a + b, v) == Emitted(a, v) + Emitted(b, v)
    decreases |b|
  {
    if b == [] {
      assert a + b == a;
    } else {
      var b', p := b[..|b| - 1], b[|b| - 1];
      assert (a + b)[..|a + b| - 1] == a + b';
      EmittedConcat(a, b', v);
    }
  }

  /** A single point is emitted exactly when the filter lets it through. */
  lemma EmittedSingle(p: DrawablePoint, v: View)
    ensures Emitted([p], v) == if PointAlpha(p, v).Some? then [p] else []
  {
    assert [p][..0] == [];
  }

  /** Every emitted point passes the filter and comes from the list, and
      every point of the list that passes the filter is emitted. */
  lemma {:induction false} EmittedMembers(points: seq<DrawablePoint>, v: View)
    ensures forall p :: p in Emitted(points, v) ==> p in points && PointAlpha(p, v).Some?
    ensures forall p :: p in points && PointAlpha(p, v).Some? ==> p in Emitted(points, v)
    decreases |points|
  {
    if points != [] {
      var init := points[..|points| - 1];
      EmittedMembers(init, v);
      assert points == init + [points[|points| - 1]];
    }
  }

  /** One vertex per emitted point, at that point's position. */
  lemma {:induction false} RenderEmitted(points: seq<DrawablePoint>, v: View, pen: Rgba)
    ensures |Render(points, v, pen).0| == |Emitted(points, v)|
    ensures forall j :: 0 <= j < |Emitted(points, v)| ==>
      Render(points, v, pen).0[j].pos == Emitted(points, v)[j].pos
    decreases |points|
  {
    if points != [] {
      RenderEmitted(points[..|points| - 1], v, pen);
    }
  }

  /** In 8-bit mode every point is drawn, in order, in its own grey with the
      alpha of the filter; the starting colour plays no part. */
  lemma {:induction false} RenderGrey(points: seq<DrawablePoint>, v: View, pen: Rgba)
    requires !v.change_bit_encode
    ensures |Render(points, v, pen).0| == |points|
    ensures forall j :: 0 <= j < |points| ==>
      Render(points, v, pen).0[j] ==
        Vertex(points[j].pos, Rgba(points[j].c, points[j].c, points[j].c, PointAlpha(points[j], v).value))
    decreases |points|
  {
    if points != [] {
      var init := points[..|points| - 1];
      RenderGrey(init, v, pen);
      forall j | 0 <= j < |init| ensures init[j] == points[j] { }
    }
  }

  /** When `getColor` sets a colour for every emitted point, each vertex
      has that point's position and the colour `getColor` chose for it with
      the filter's alpha; the starting colour plays no part. */
  lemma {:induction false} RenderColours(points: seq<DrawablePoint>, v: View, pen: Rgba)
    requires forall j :: 0 <= j < |points| && PointAlpha(points[j], v).Some? ==>
      Colour(points[j], PointAlpha(points[j], v).value, v.change_bit_encode).Some?
    ensures |Render(points, v, pen).0| == |Emitted(points, v)|
    ensures forall j :: 0 <= j < |Emitted(points, v)| ==>
      var p := Emitted(points, v)[j];
      PointAlpha(p, v).Some? && Colour(p, PointAlpha(p, v).value, v.change_bit_encode).Some? &&
      Render(points, v, pen).0[j] == Vertex(p.pos, Colour(p, PointAlpha(p, v).value, v.change_bit_encode).value)
    decreases |points|
  {
    if points != [] {
      var init := points[..|points| - 1];
      forall j | 0 <= j < |init| ensures init[j] == points[j] { }
      RenderColours(init, v, pen);
    }
  }

  /** In 16-bit mode with at most six buckets, every point the projection
      emits is drawn in the palette colour of its bucket. */
  lemma BucketsDrawnInPalette(g: Geometry, vol: seq<Byte>, enc: Encoding, v: View, pen: Rgba)
    requires Projectable(g, vol, enc) && enc.Buckets? && 1 <= enc.k <= 6 && v.change_bit_encode
    ensures var points := Projection(g, vol, enc);
      && |Render(points, v, pen).0| == |Emitted(points, v)|
      && forall j :: 0 <= j < |Emitted(points, v)| ==>
           var p := Emitted(points, v)[j];
           0 <= p.vol_idx <= enc.k &&
           Render(points, v, pen).0[j] == Vertex(p.pos, Colour(p, PointAlpha(p, v).value, true).value)
  {
    var points := Projection(g, vol, enc);
    forall j | 0 <= j < |points| && PointAlpha(points[j], v).Some?
      ensures 0 <= points[j].vol_idx <= enc.k
      ensures Colour(points[j], PointAlpha(points[j], v).value, v.change_bit_encode).Some?
    {
      ProjectionValues(g, vol, enc, j);
    }
    RenderColours(points, v, pen);
    EmittedMembers(points, v);
  }

  class GLWidget {
    var alpha: real
    /** The number of buckets; the constructor leaves it uninitialised. */
    var k: int
    var hide_empty_points: bool
    var highlight: bool
    var hide_above: bool
    var hide_below: bool
    var change_bit_encode: bool
    /** Uninitialised until `setCurrentSlice`. */
    var current_slice: int
    var volumic_data: VolumicData?
    var raw_data: RawData?
    var display_points: seq<DrawablePoint>

    /** `GLWidget(parent)`: alpha 0.05, every option off, no data. */
    constructor ()
      ensures alpha == 0.05 && volumic_data == null && raw_data == null && display_points == []
      ensures !hide_empty_points && !highlight && !hide_above && !hide_below && !change_bit_encode
    {
      alpha := 0.05;
      hide_empty_points, highlight, hide_above, hide_below, change_bit_encode := false, false, false, false, false;
      volumic_data, raw_data := null, null;
      display_points := [];
    }

    function ViewState(): View
      reads this
    {
      View(alpha, hide_empty_points, highlight, hide_above, hide_below, change_bit_encode, current_slice)
    }

    /** The shape of the display volume. */
    function GeometryOf(vd: VolumicData): Geometry
      reads vd
    {
      Geometry(vd.width, vd.height, vd.depth, vd.pixel_width, vd.pixel_height, vd.slice_spacing)
    }

    /** The encoding the current mode selects. */
    function EncodingOf(): Encoding
      reads this, if raw_data != null then {raw_data, raw_data.data} else {}
      requires change_bit_encode ==> raw_data != null
    {
      if change_bit_encode then Buckets(raw_data.data[..], raw_data.w_min, raw_data.w_max, k) else Grey
    }

    /** The states in which `updateDisplayPoints` is defined: a shaped display
        volume of non-zero extent and, in 16-bit mode, a raw volume with at
        least as many voxels. */
    ghost predicate Ready()
      reads this, volumic_data, if volumic_data != null then {volumic_data.data} else {}
      reads if raw_data != null then {raw_data, raw_data.data} else {}
    {
      volumic_data != null ==>
        volumic_data.Shaped() && (change_bit_encode ==> raw_data != null) &&
        Projectable(GeometryOf(volumic_data), volumic_data.data[..], EncodingOf())
    }

    /** The point list the current state determines. */
    ghost function Expected(): seq<DrawablePoint>
      reads this, volumic_data, if volumic_data != null then {volumic_data.data} else {}
      reads if raw_data != null then {raw_data, raw_data.data} else {}
      requires Ready()
    {
      if volumic_data == null then []
      else Projection(GeometryOf(volumic_data), volumic_data.data[..], EncodingOf())
    }

    /** `updateDisplayPoints`: clears the list and, if there is a display
        volume, computes the axis factors and imports one point per voxel. */
    method UpdateDisplayPoints()
      requires Ready()
      modifies this`display_points
      ensures display_points == Expected()
    {
      display_points := [];
      if volumic_data == null {
        return;
      }
      var W, H, D := volumic_data.width, volumic_data.height, volumic_data.depth;
      var x_factor := volumic_data.pixel_width;
      var y_factor := volumic_data.pixel_height;
      var z_factor := volumic_data.slice_spacing;
      var max_size := Max(Max(x_factor * W as real, y_factor * H as real), z_factor * D as real);
      var global_factor := 2.0 / max_size;
      x_factor := x_factor * global_factor;
      y_factor := y_factor * global_factor;
      z_factor := z_factor * global_factor;
      ghost var g := GeometryOf(volumic_data);
      assert MaxSize(g) == max_size;
      ImportPoints(x_factor, y_factor, z_factor);
      assert Vec3(x_factor, y_factor, z_factor) == Factors(g);
    }

    /** The import loop of `updateDisplayPoints`: pushes the point of every
        voxel, stepping the column, row and layer counters, with the colour
        data of the current mode. */
    method ImportPoints(x_factor: real, y_factor: real, z_factor: real)
      requires volumic_data != null && volumic_data.Shaped() && display_points == []
      requires change_bit_encode ==>
        (raw_data != null && volumic_data.data.Length <= raw_data.data.Length)
      modifies this`display_points
      ensures |display_points| == volumic_data.data.Length
      ensures forall j :: 0 <= j < |display_points| ==>
        1 <= volumic_data.width && 1 <= volumic_data.height &&
        display_points[j] == PointWith(Vec3(x_factor, y_factor, z_factor),
          volumic_data.width, volumic_data.height, volumic_data.depth,
          volumic_data.data[..], EncodingOf(), j)
    {
      var W, H, D := volumic_data.width, volumic_data.height, volumic_data.depth;
      var col, row, depth := 0, 0, 0;
      var idx_end := W * H * D;
      ghost var vol, enc := volumic_data.data[..], EncodingOf();
      ghost var f := Vec3(x_factor, y_factor, z_factor);
      if 0 < idx_end {
        NonEmptyVolume(W, H, D);
      }
      var idx := 0;
      while idx < idx_end
        invariant 0 <= idx <= idx_end
        invariant idx < idx_end ==>
          (1 <= W && 1 <= H && col == idx % W && row == (idx / W) % H && depth == idx / (W * H))
        invariant |display_points| == idx
        invariant forall j :: 0 <= j < idx ==>
          1 <= W && 1 <= H && display_points[j] == PointWith(f, W, H, D, vol, enc, j)
      {
        var c, vol_idx := VoxelColour(idx);
        var pos := Vec3(Centred(col, W, x_factor), Centred(row, H, y_factor), Centred(depth, D, z_factor));
        assert (c, vol_idx) == VoxelData(vol, enc, idx);
        assert DrawablePoint(pos, depth, c, vol_idx) == PointWith(f, W, H, D, vol, enc, idx);
        display_points := display_points + [DrawablePoint(pos, depth, c, vol_idx)];
        NextVoxel(W, H, idx);
        col := col + 1;
        if col == W {
          row := row + 1;
          col := 0;
        }
        if row == H {
          depth := depth + 1;
          row := 0;
        }
        idx := idx + 1;
      }
    }

    /** The colour data the import loop computes for voxel `idx`: in 8-bit
        mode the grey level and no bucket, in 16-bit mode the classification
        of the raw value against the window, with the exact-`w_max` rule. */
    method VoxelColour(idx: int) returns (c: real, vol_idx: int)
      requires volumic_data != null && 0 <= idx < volumic_data.data.Length
      requires change_bit_encode ==> (raw_data != null && idx < raw_data.data.Length)
      ensures (c, vol_idx) == VoxelData(volumic_data.data[..], EncodingOf(), idx)
    {
      if !change_bit_encode {
        c := volumic_data.data[idx] as real / 255.0;
        vol_idx := -1;
      } else {
        var v := raw_data.data[idx];
        assert EncodingOf() == Buckets(raw_data.data[..], raw_data.w_min, raw_data.w_max, k);
        if v < raw_data.w_min {
          c := 0.0;
          vol_idx := -1;
        } else if v >= raw_data.w_max {
          c := 1.0;
          if v == raw_data.w_max {
            vol_idx := k;
          } else {
            vol_idx := -1;
          }
        } else {
          c := (v - raw_data.w_min) as real / (raw_data.w_max - raw_data.w_min) as real;
          vol_idx := (k as real * c).Floor;
          assert c == Bucket(v, raw_data.w_min, raw_data.w_max, k).0;
          assert vol_idx == Bucket(v, raw_data.w_min, raw_data.w_max, k).1;
        }
      }
    }

    /** `updateVolumicData`: takes the new display volume and rebuilds the
        points. */
    method UpdateVolumicData(new_data: VolumicData?)
      requires new_data != null ==> new_data.Shaped() && (change_bit_encode ==> raw_data != null)
      requires new_data != null ==>
        Projectable(GeometryOf(new_data), new_data.data[..], EncodingOf())
      modifies this`volumic_data, this`display_points
      ensures volumic_data == new_data
      ensures display_points == Expected()
    {
      volumic_data := new_data;
      UpdateDisplayPoints();
    }

    /** `updateRawData`: takes the new raw volume and rebuilds the points. */
    method UpdateRawData(new_data: RawData?)
      requires volumic_data != null ==> volumic_data.Shaped() && (change_bit_encode ==> new_data != null)
      requires volumic_data != null ==>
        Projectable(GeometryOf(volumic_data), volumic_data.data[..],
                    if change_bit_encode then Buckets(new_data.data[..], new_data.w_min, new_data.w_max, k) else Grey)
      modifies this`raw_data, this`display_points
      ensures raw_data == new_data
      ensures display_points == Expected()
    {
      raw_data := new_data;
      UpdateDisplayPoints();
    }

    /** `setK`: changes the number of buckets and only repaints; the points
        keep the buckets of the last rebuild. */
    method SetK(new_k: int)
      modifies this`k
      ensures k == new_k
    {
      k := new_k;
    }

    method SetAlpha(new_alpha: real)
      modifies this`alpha
      ensures alpha == new_alpha
    {
      alpha := new_alpha;
    }

    method SetCurrentSlice(slice: int)
      modifies this`current_slice
      ensures current_slice == slice
    {
      current_slice := slice;
    }

    method SetHideEmptyPoints(check: bool)
      modifies this`hide_empty_points
      ensures hide_empty_points == check
    {
      hide_empty_points := check;
    }

    method SetHighlight(check: bool)
      modifies this`highlight
      ensures highlight == check
    {
      highlight := check;
    }

    method SetHideAbove(check: bool)
      modifies this`hide_above
      ensures hide_above == check
    {
      hide_above := check;
    }

    method SetHideBelow(check: bool)
      modifies this`hide_below
      ensures hide_below == check
    {
      hide_below := check;
    }

    /** `setBitEncode`: switches the mode without rebuilding the points. */
    method SetBitEncode(check: bool)
      modifies this`change_bit_encode
      ensures change_bit_encode == check
    {
      change_bit_encode := check;
    }

    /** The point loop of `paintGL`: filters each point, picks its alpha,
        lets `getColor` set the colour, and issues the vertex. */
    method Paint(pen: Rgba) returns (drawn: seq<Vertex>, current: Rgba)
      ensures (drawn, current) == Render(display_points, ViewState(), pen)
    {
      drawn, current := [], pen;
      var i := 0;
      while i < |display_points|
        invariant 0 <= i <= |display_points|
        invariant (drawn, current) == Render(display_points[..i], ViewState(), pen)
      {
        var p := display_points[i];
        if p.vol_idx != -1 || !change_bit_encode {
          var a: real;
          if (hide_empty_points && p.c == 0.0) || (hide_above && p.depth > current_slice) ||
             (hide_below && p.depth < current_slice) {
            a := 0.0;
          } else if highlight && p.depth == current_slice {
            a := 1.0;
          } else {
            a := alpha;
          }
          var colour := Colour(p, a, change_bit_encode);
          if colour.Some? {
            current := colour.value;
          }
          drawn := drawn + [Vertex(p.pos, current)];
        }
        assert display_points[..i + 1][..i] == display_points[..i];
        i := i + 1;
      }
      assert display_points[..i] == display_points;
    }
  }
}
