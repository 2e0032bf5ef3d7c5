/** LayeredImage: a base image, an ordered list of timed overlay layers, the
    image rendered from them, and a touch-area table scaled to the display. */
module LayeredImages {
  import opened SkiaTypes
  import opened Sequences
  import opened AreaTables
  import opened ImageLayers
  import opened Nullables

  /** One DrawBitmap call: an image and the top-left point it was drawn at. */
  datatype Placement = Placement(image: Bitmap, location: Point)

  /** A rendered image: a fresh copy of `base` with `drawn` painted over it in
      order, so a later placement lies on top of an earlier one. */
  datatype Composite = Composite(base: Bitmap, drawn: seq<Placement>)

  /** The result of SetBaseImage: replaced, or the exception it throws when the
      new image's dimensions differ from the current base image's. */
  datatype SetBaseImageOutcome = Replaced | DimensionMismatch

  // ----- Layer list -----

  predicate HasId(layers: seq<ImageLayer>, id: LayerId) {
    exists i :: 0 <= i < |layers| && layers[i].id == id
  }

  /** Guids are unique: no two layers share an id. */
  predicate DistinctIds(layers: seq<ImageLayer>) {
    forall i, j :: 0 <= i < j < |layers| ==> layers[i].id != layers[j].id
  }

  /** The largest id in use (0 for no layers). */
  function MaxId(layers: seq<ImageLayer>): (m: nat)
    ensures forall i :: 0 <= i < |layers| ==> layers[i].id <= m
  {
    if layers == [] then 0
    else var rest := MaxId(layers[1..]); if layers[0].id > rest then layers[0].id else rest
  }

  /** Position of the first layer with that id (`FirstOrDefault(x => x.Id == id)`);
      |layers| when there is none. */
  function FirstWithId(layers: seq<ImageLayer>, id: LayerId): (i: nat)
    ensures i <= |layers|
    ensures i < |layers| ==> layers[i].id == id
    ensures forall j :: 0 <= j < i ==> layers[j].id != id
  {
    if layers == [] then 0
    else if layers[0].id == id then 0
    else 1 + FirstWithId(layers[1..], id)
  }

  /** Reference definition of removal: the layers whose id is not in `ids`, in
      their original order. */
  function Without(layers: seq<ImageLayer>, ids: set<LayerId>): seq<ImageLayer> {
    Filter(layers, IdNotIn(ids))
  }

  /** The test a layer passes to survive the removal of `ids`. */
  function IdNotIn(ids: set<LayerId>): ImageLayer -> bool {
    (l: ImageLayer) => l.id !in ids
  }

  /** The ids named in a sequence. */
  function SetOf(ids: seq<LayerId>): set<LayerId> {
    set x | x in ids
  }

  /** The layers AddLayers appends: one per bitmap, in input order, with the
      matching id. */
  function NewLayers(bitmaps: seq<Bitmap>, ids: seq<LayerId>, location: Point, now: int,
                     displayDelay: Int32, displayDuration: Int32): (r: seq<ImageLayer>)
    requires |ids| == |bitmaps|
  {
    seq(|bitmaps|, i requires 0 <= i < |bitmaps| =>
      ImageLayer(ids[i], bitmaps[i], location, now, displayDelay, displayDuration))
  }

  /** Removing leaves exactly the layers whose id was not named, never reorders
      them, keeps ids distinct, and is a no-op for ids no layer has. */
  lemma WithoutProperties(layers: seq<ImageLayer>, ids: set<LayerId>)
    requires DistinctIds(layers)
    ensures DistinctIds(Without(layers, ids))
    ensures forall l :: l in Without(layers, ids) <==> l in layers && l.id !in ids
    ensures (forall i :: 0 <= i < |layers| ==> layers[i].id !in ids) ==> Without(layers, ids) == layers
  {
    FilterKeepsPairwise(layers, IdNotIn(ids), (a: ImageLayer, b: ImageLayer) => a.id != b.id);
    WithoutMembers(layers, ids);
    if forall i :: 0 <= i < |layers| ==> layers[i].id !in ids {
      FilterKeepsAll(layers, IdNotIn(ids));
    }
  }

  /** A layer survives removal exactly when it was there and its id was not named. */
  lemma WithoutMembers(layers: seq<ImageLayer>, ids: set<LayerId>)
    ensures forall l :: l in Without(layers, ids) <==> l in layers && l.id !in ids
  {
    var keep := IdNotIn(ids);
    FilterMembers(layers, keep);
    var r := Without(layers, ids);
    forall l | l in r ensures l in layers && l.id !in ids {
      var k :| 0 <= k < |r| && r[k] == l;
      assert keep(r[k]);
    }
    forall l | l in layers && l.id !in ids ensures l in r {
      var k :| 0 <= k < |layers| && layers[k] == l;
      assert keep(layers[k]);
    }
  }

  /** Cutting out the first layer with an id is removal of that id, when ids are
      distinct. */
  lemma RemoveAtIsWithout(layers: seq<ImageLayer>, id: LayerId)
    requires DistinctIds(layers)
    requires FirstWithId(layers, id) < |layers|
    ensures var i := FirstWithId(layers, id);
      layers[..i] + layers[i + 1..] == Without(layers, {id})
  {
    var i := FirstWithId(layers, id);
    var keep := IdNotIn({id});
    forall j | 0 <= j < |layers| && j != i ensures keep(layers[j]) {
      if j > i {
        assert layers[i].id != layers[j].id;
      }
    }
    FilterDropsOne(layers, keep, i);
  }

  /** Removing one id after a set of ids removes their union. */
  lemma WithoutThenWithout(layers: seq<ImageLayer>, ids: set<LayerId>, id: LayerId)
    ensures Without(Without(layers, ids), {id}) == Without(layers, ids + {id})
  {
    FilterOfFilter(layers, IdNotIn(ids), IdNotIn({id}), IdNotIn(ids + {id}));
  }

  // ----- Rendering -----

  /** The layers LayerRender draws at time `now` (`Where(x => x.Status == Display)`),
      in list order. */
  function DisplayLayers(layers: seq<ImageLayer>, now: int): (r: seq<ImageLayer>)
    ensures |r| <= |layers|
    ensures forall i :: 0 <= i < |r| ==> r[i].Status(now) == Display
  {
    Filter(layers, DisplayedAt(now))
  }

  /** The test a layer passes to be drawn at time `now`. */
  function DisplayedAt(now: int): ImageLayer -> bool {
    (l: ImageLayer) => l.Status(now) == Display
  }

  function PlacementsOf(layers: seq<ImageLayer>): (r: seq<Placement>)
    ensures |r| == |layers|
  {
    seq(|layers|, i requires 0 <= i < |layers| => Placement(layers[i].image, layers[i].location))
  }

  /** A full render at `now`: a copy of the base with every Display layer drawn
      in list order. */
  function Composited(base: Bitmap, layers: seq<ImageLayer>, now: int): Composite {
    Composite(base, PlacementsOf(DisplayLayers(layers, now)))
  }

  /** The early return of an unforced LayerRender: nothing is drawn on the
      current image and no layer is due for display. */
  predicate SkipsRender(layers: seq<ImageLayer>, renderedLayerCount: int, forceRender: bool, now: int) {
    !forceRender && renderedLayerCount == 0 && forall i :: 0 <= i < |layers| ==> layers[i].Status(now) != Display
  }

  /** The composite draws nothing exactly when no layer is due for display; this
      is what makes the skip rule safe. */
  lemma NothingDrawnExactly(base: Bitmap, layers: seq<ImageLayer>, now: int)
    ensures Composited(base, layers, now).drawn == []
        <==> forall i :: 0 <= i < |layers| ==> layers[i].Status(now) != Display
  {
    var d := DisplayLayers(layers, now);
    FilterMembers(layers, DisplayedAt(now));
    if exists i :: 0 <= i < |layers| && layers[i].Status(now) == Display {
      var i :| 0 <= i < |layers| && layers[i].Status(now) == Display;
      assert layers[i] in d;
    }
    if d != [] {
      assert d[0] in layers;
    }
  }

  /** Draw order: the composite of a list is the composite of a prefix with the
      rest drawn on top of it. */
  lemma ComposedInListOrder(base: Bitmap, front: seq<ImageLayer>, back: seq<ImageLayer>, now: int)
    ensures Composited(base, front + back, now).drawn
         == Composited(base, front, now).drawn + Composited(base, back, now).drawn
  {
    FilterAppend(front, back, DisplayedAt(now));
    var a := DisplayLayers(front, now);
    var b := DisplayLayers(back, now);
    assert PlacementsOf(a + b) == PlacementsOf(a) + PlacementsOf(b);
  }

  /** A layer appended to the list and due for display is drawn last, on top of
      every other layer. */
  lemma AppendedLayerOnTop(base: Bitmap, layers: seq<ImageLayer>, l: ImageLayer, now: int)
    requires l.Status(now) == Display
    ensures Composited(base, layers + [l], now).drawn
         == Composited(base, layers, now).drawn + [Placement(l.image, l.location)]
  {
    ComposedInListOrder(base, layers, [l], now);
    assert DisplayLayers([l], now) == [l];
  }

  /** A layer that is not Display (delayed or expired) is not among the layers
      drawn, even while it stays in the list. */
  lemma HiddenLayerNotDrawn(layers: seq<ImageLayer>, l: ImageLayer, now: int)
    requires l.Status(now) != Display
    ensures l !in DisplayLayers(layers, now)
  {
  }

  // ----- Debug overlay -----

  /** The entries ShowAreas paints: all of them for -1, else those with that key. */
  function ShownAreas(areas: AreaTable, area: int): AreaTable {
    Filter(areas, Shown(area))
  }

  /** The test an entry passes to be painted by ShowAreas(area). */
  function Shown(area: int): Entry -> bool {
    (e: Entry) => area == -1 || e.key == area
  }

  function RectsOf(t: AreaTable): (r: seq<Rect>)
    ensures |r| == |t|
  {
    seq(|t|, i requires 0 <= i < |t| => t[i].rect)
  }

  /** With -1 ShowAreas paints every area; with a key the table holds, exactly
      that one area. */
  lemma ShownAreasSelection(areas: AreaTable, area: int, k: nat)
    requires DistinctKeys(areas)
    ensures ShownAreas(areas, -1) == areas
    ensures area != -1 && k < |areas| && areas[k].key == area ==> ShownAreas(areas, area) == [areas[k]]
  {
    FilterKeepsAll(areas, Shown(-1));
    if area != -1 && k < |areas| && areas[k].key == area {
      var keep := Shown(area);
      var front, hit, back := areas[..k], [areas[k]], areas[k + 1..];
      assert areas == front + (hit + back);
      FilterAppend(front, hit + back, keep);
      FilterAppend(hit, back, keep);
      NoneShown(front, area);
      assert forall j :: 0 <= j < |back| ==> back[j].key != area by {
        forall j | 0 <= j < |back| ensures back[j].key != area {
          assert back[j] == areas[k + 1 + j];
        }
      }
      NoneShown(back, area);
      assert keep(hit[0]) && hit[1..] == [];
      assert Filter(hit, keep) == hit;
    }
  }

  /** A table without the key shows nothing for it. */
  lemma {:induction false} NoneShown(t: AreaTable, area: int)
    requires area != -1
    requires forall i :: 0 <= i < |t| ==> t[i].key != area
    ensures ShownAreas(t, area) == []
  {
    if t != [] {
      NoneShown(t[1..], area);
    }
  }

  // ----- The class -----

  class LayeredImage {
    /** `_image`: the image served to readers. */
    var image: Composite
    /** `_baseImage`. */
    var baseImage: Bitmap
    /** `_baseAreas`: the unscaled areas, or null. */
    const baseAreas: Option<AreaTable>
    /** `Areas`: the areas scaled to the display. */
    var areas: AreaTable
    /** `Layers`, in the order they are drawn. */
    var layers: seq<ImageLayer>
    /** `_renderedLayerCount`: how many layers are drawn on `image`. */
    var renderedLayerCount: int
    /** `PixelDensity`, a public field set by the page. */
    var pixelDensity: real

    /** Invariants of everything but the render cache. */
    ghost predicate StateValid()
      reads this
    {
      && baseImage.width > 0 && baseImage.height > 0
      && DistinctIds(layers)
      && (baseAreas.Some? ==> DistinctKeys(baseAreas.value) && Keys(areas) == Keys(baseAreas.value))
      && (baseAreas.None? ==> areas == [])
    }

    /** The rendered image is a copy of the current base with
        `renderedLayerCount` layers drawn on it. */
    ghost predicate CacheValid()
      reads this
    {
      image.base == baseImage && renderedLayerCount == |image.drawn|
    }

    ghost predicate Valid()
      reads this
    {
      StateValid() && CacheValid()
    }

    /** LayeredImage(SKBitmap, Dictionary?): the constructor that takes a loaded
        image (the resource-loading one differs only in where the image comes from). */
    constructor (baseImage: Bitmap, imageAreas: Option<AreaTable>)
      requires baseImage.width > 0 && baseImage.height > 0
      requires imageAreas.Some? ==> DistinctKeys(imageAreas.value)
      ensures Valid()
      ensures this.baseImage == baseImage && image == Composite(baseImage, [])
      ensures baseAreas == imageAreas && areas == (if imageAreas.Some? then imageAreas.value else [])
      ensures layers == [] && renderedLayerCount == 0 && pixelDensity == 0.0
    {
      this.baseImage := baseImage;
      image := Composite(baseImage, []);
      baseAreas := imageAreas;
      areas := [];
      layers := [];
      renderedLayerCount := 0;
      pixelDensity := 0.0;
      new;
      ResetAreas();
    }

    /** ResetAreas: the areas become a copy of the base areas, when there are any. */
    method ResetAreas()
      modifies this`areas
      ensures baseAreas.Some? ==> areas == baseAreas.value
      ensures baseAreas.None? ==> areas == old(areas)
    {
      if baseAreas.Some? {
        areas := baseAreas.value;
      }
    }

    /** SetBaseImage: refuses an image of other dimensions and changes nothing;
        otherwise replaces the base and forces a render. */
    method SetBaseImage(newBase: Bitmap, now: int) returns (outcome: SetBaseImageOutcome)
      requires Valid()
      modifies this`baseImage, this`image, this`renderedLayerCount
      ensures Valid()
      ensures outcome == DimensionMismatch
          <==> newBase.width != old(baseImage.width) || newBase.height != old(baseImage.height)
      ensures outcome == DimensionMismatch ==>
        baseImage == old(baseImage) && image == old(image) && renderedLayerCount == old(renderedLayerCount)
      ensures outcome == Replaced ==>
        baseImage == newBase && image == Composited(newBase, layers, now)
    {
      if newBase.width != baseImage.width || newBase.height != baseImage.height {
        return DimensionMismatch;
      }
      baseImage := newBase;
      LayerRender(true, now);
      outcome := Replaced;
    }

    /** InArea(SKPoint): -1 for an empty table; otherwise the point is divided by
        the pixel density and the key of the first area containing it is
        returned, or -1 when none does. At density 0 the division yields an
        infinity or NaN, which no finite rectangle contains, so the answer is -1. */
    function InArea(point: Point): (key: int)
      reads this
      ensures areas == [] || pixelDensity == 0.0 ==> key == -1
      ensures pixelDensity != 0.0 && !AnyContains(areas, Unscaled(point, pixelDensity, pixelDensity)) ==> key == -1
      ensures pixelDensity != 0.0 ==>
        forall i :: IsFirstMatch(areas, Unscaled(point, pixelDensity, pixelDensity), i) ==> key == areas[i].key
    {
      if areas == [] || pixelDensity == 0.0 then -1
      else FindArea(areas, Unscaled(point, pixelDensity, pixelDensity))
    }

    /** `_baseImageSize`: `new SKSize(Image.Width, Image.Height)`, where each read
        of the `Image` property runs an unforced render. */
    method BaseImageSize(now: int) returns (size: Size)
      requires Valid()
      modifies this`image, this`renderedLayerCount
      ensures Valid()
      ensures size == Size(baseImage.width as real, baseImage.height as real)
      ensures image == Composited(baseImage, layers, now)
    {
      var forWidth := GetImage(now);
      var forHeight := GetImage(now);
      size := Size(forWidth.base.width as real, forHeight.base.height as real);
    }

    /** CalculateAreas: without base areas, nothing happens. Otherwise every area
        is rebuilt from the base table scaled by (scaled size / base size) in X
        and Y, so the result does not depend on the areas before the call; reading
        the base size renders the image as a side effect. */
    method CalculateAreas(scaledImageSize: Size, now: int)
      requires Valid()
      modifies this`areas, this`image, this`renderedLayerCount
      ensures Valid()
      ensures baseAreas.None? ==>
        areas == old(areas) && image == old(image) && renderedLayerCount == old(renderedLayerCount)
      ensures baseAreas.Some? ==>
        areas == Rescaled(baseAreas.value, scaledImageSize.width / baseImage.width as real,
                          scaledImageSize.height / baseImage.height as real)
      ensures baseAreas.Some? ==> image == Composited(baseImage, layers, now)
    {
      if baseAreas.None? {
        return;
      }
      ResetAreas();
      var sizeForWidth := BaseImageSize(now);
      var widthRatio := scaledImageSize.width / sizeForWidth.width;
      var sizeForHeight := BaseImageSize(now);
      var heightRatio := scaledImageSize.height / sizeForHeight.height;
      ghost var original := baseAreas.value;
      var i := 0;
      while i < |areas|
        invariant 0 <= i <= |areas| == |original|
        invariant Valid() && image == Composited(baseImage, layers, now)
        invariant forall j :: 0 <= j < i ==>
          areas[j] == Entry(original[j].key, original[j].rect.Scaled(widthRatio, heightRatio))
        invariant forall j :: i <= j < |areas| ==> areas[j] == original[j]
      {
        areas := areas[i := Entry(areas[i].key, areas[i].rect.Scaled(widthRatio, heightRatio))];
        i := i + 1;
      }
      assert areas == Rescaled(original, widthRatio, heightRatio);
    }

    /** ShowAreas: appends one layer, at (0,0), never delayed or expiring, whose
        image is a copy of the base with the chosen areas (all for -1) filled. */
    method ShowAreas(area: int)
      requires Valid()
      modifies this`layers
      ensures Valid()
      ensures |layers| == |old(layers)| + 1 && layers[..|old(layers)|] == old(layers)
      ensures var l := layers[|old(layers)|];
        && !HasId(old(layers), l.id)
        && l.image == Bitmap(baseImage.width, baseImage.height,
                             Highlighted(baseImage.pixels, RectsOf(ShownAreas(areas, area))))
        && l.location == Point(0.0, 0.0)
        && l.layerAddedTimestamp == DateTimeMinValue
        && l.displayDelay == 0 && l.displayDuration == 0
    {
      var rects: seq<Rect> := [];
      var i := 0;
      while i < |areas|
        invariant 0 <= i <= |areas|
        invariant rects == RectsOf(ShownAreas(areas[..i], area))
        invariant layers == old(layers)
      {
        FilterAppend(areas[..i], [areas[i]], Shown(area));
        assert areas[..i + 1] == areas[..i] + [areas[i]];
        if area != -1 && areas[i].key != area {
          i := i + 1;
          continue;
        }
        rects := rects + [areas[i].rect];
        i := i + 1;
      }
      assert areas[..i] == areas;
      var overlay := Bitmap(baseImage.width, baseImage.height, Highlighted(baseImage.pixels, rects));
      var id := NewId();
      layers := layers + [ImageLayer(id, overlay, Point(0.0, 0.0), DateTimeMinValue, 0, 0)];
    }

    /** Guid.NewGuid(): some id no layer has. */
    method NewId() returns (id: LayerId)
      ensures !HasId(layers, id)
    {
      var bound := MaxId(layers) + 1;
      id :| id <= bound && !HasId(layers, id);
    }

    /** AddLayer: appends one layer with a fresh id, the given image, location,
        duration and delay, stamped `now`, and returns its id. */
    method AddLayer(bitmap: Bitmap, location: Point, displayDuration: Int32, displayDelay: Int32, now: int)
      returns (id: LayerId)
      requires Valid()
      modifies this`layers
      ensures Valid()
      ensures !HasId(old(layers), id)
      ensures layers == old(layers) + [ImageLayer(id, bitmap, location, now, displayDelay, displayDuration)]
    {
      id := NewId();
      layers := layers + [ImageLayer(id, bitmap, location, now, displayDelay, displayDuration)];
    }

    /** AddLayers: one AddLayer per bitmap, in input order; returns the new ids in
        that order. */
    method AddLayers(bitmaps: seq<Bitmap>, location: Point, displayDuration: Int32, displayDelay: Int32, now: int)
      returns (ids: seq<LayerId>)
      requires Valid()
      modifies this`layers
      ensures Valid()
      ensures |ids| == |bitmaps|
      ensures forall k :: 0 <= k < |ids| ==> !HasId(old(layers), ids[k])
      ensures layers == old(layers) + NewLayers(bitmaps, ids, location, now, displayDelay, displayDuration)
    {
      ids := [];
      var k := 0;
      while k < |bitmaps|
        invariant 0 <= k <= |bitmaps| && |ids| == k
        invariant Valid()
        invariant forall j :: 0 <= j < k ==> !HasId(old(layers), ids[j])
        invariant layers == old(layers) + NewLayers(bitmaps[..k], ids, location, now, displayDelay, displayDuration)
      {
        ghost var before := layers;
        var id := AddLayer(bitmaps[k], location, displayDuration, displayDelay, now);
        forall j | 0 <= j < |old(layers)| ensures old(layers)[j].id != id {
          assert before[j] == old(layers)[j];
        }
        ids := ids + [id];
        k := k + 1;
      }
      assert bitmaps[..k] == bitmaps;
    }

    /** RemoveLayer: removes the layer with that id; an absent id is a no-op. */
    method RemoveLayer(id: LayerId)
      requires Valid()
      modifies this`layers
      ensures Valid()
      ensures layers == Without(old(layers), {id})
    {
      WithoutProperties(layers, {id});
      var i := FirstWithId(layers, id);
      if i == |layers| {
        return;
      }
      RemoveAtIsWithout(layers, id);
      layers := layers[..i] + layers[i + 1..];
    }

    /** RemoveLayers: removes, in turn, the layer of each id present; absent ids
        are skipped. */
    method RemoveLayers(ids: seq<LayerId>)
      requires Valid()
      modifies this`layers
      ensures Valid()
      ensures layers == Without(old(layers), SetOf(ids))
    {
      WithoutProperties(layers, {});
      assert SetOf(ids[..0]) == {};
      var k := 0;
      while k < |ids|
        invariant 0 <= k <= |ids|
        invariant Valid()
        invariant layers == Without(old(layers), SetOf(ids[..k]))
      {
        var id := ids[k];
        WithoutThenWithout(old(layers), SetOf(ids[..k]), id);
        assert SetOf(ids[..k + 1]) == SetOf(ids[..k]) + {id} by {
          assert ids[..k + 1] == ids[..k] + [id];
        }
        WithoutProperties(layers, {id});
        var i := FirstWithId(layers, id);
        if i == |layers| {
          k := k + 1;
          continue;
        }
        RemoveAtIsWithout(layers, id);
        layers := layers[..i] + layers[i + 1..];
        k := k + 1;
      }
      assert ids[..k] == ids;
    }

    /** LayerRender: an unforced render returns untouched when nothing is drawn
        and nothing is due; otherwise the image becomes a fresh copy of the base
        with the Display layers drawn in list order, and the count is their
        number. Either way the served image is the full composite at `now`. */
    method LayerRender(forceRender: bool, now: int)
      requires StateValid() && (!forceRender ==> CacheValid())
      modifies this`image, this`renderedLayerCount
      ensures Valid()
      ensures SkipsRender(layers, old(renderedLayerCount), forceRender, now) ==>
        image == old(image) && renderedLayerCount == old(renderedLayerCount)
      ensures image == Composited(baseImage, layers, now)
      ensures renderedLayerCount == |DisplayLayers(layers, now)|
    {
      if !forceRender {
        if |layers| == 0 && renderedLayerCount == 0 {
          NothingDrawnExactly(baseImage, layers, now);
          return;
        }
        if (forall i | 0 <= i < |layers| :: layers[i].Status(now) != Display) && renderedLayerCount == 0 {
          NothingDrawnExactly(baseImage, layers, now);
          return;
        }
      }
      renderedLayerCount := 0;
      image := Composite(baseImage, []);
      var i := 0;
      while i < |layers|
        invariant 0 <= i <= |layers|
        invariant image == Composited(baseImage, layers[..i], now)
        invariant renderedLayerCount == |image.drawn|
      {
        var layer := layers[i];
        assert layers[..i + 1] == layers[..i] + [layer];
        ComposedInListOrder(baseImage, layers[..i], [layer], now);
        if layer.Status(now) == Display {
          assert DisplayLayers([layer], now) == [layer];
          image := image.(drawn := image.drawn + [Placement(layer.image, layer.location)]);
          renderedLayerCount := renderedLayerCount + 1;
        } else {
          assert DisplayLayers([layer], now) == [];
        }
        i := i + 1;
      }
      assert layers[..i] == layers;
    }

    /** The `Image` getter: an unforced render, then the rendered image. */
    method GetImage(now: int) returns (result: Composite)
      requires Valid()
      modifies this`image, this`renderedLayerCount
      ensures Valid()
      ensures result == image == Composited(baseImage, layers, now)
    {
      LayerRender(false, now);
      result := image;
    }
  }

  /** The pixel-density adjustment: with the same areas, a point at density d
      hits the same area as the point divided by d at density 1. */
  lemma DensityNormalization(dense: LayeredImage, plain: LayeredImage, p: Point)
    requires dense.areas == plain.areas
    requires dense.pixelDensity > 0.0 && plain.pixelDensity == 1.0
    ensures dense.InArea(p) == plain.InArea(Unscaled(p, dense.pixelDensity, dense.pixelDensity))
  {
    var d := dense.pixelDensity;
    var q := Unscaled(p, d, d);
    assert Unscaled(q, 1.0, 1.0) == q;
  }
}
