/** ImageArea: an image with a table of touch areas that is rescaled whenever
    the size the image is displayed at changes. */
module ImageAreas {
  import opened SkiaTypes
  import opened AreaTables
  import opened Nullables

  /** `OriginalImageSize`: the size of the loaded image. */
  function OriginalSize(image: Bitmap): (size: Size)
    ensures size.width == image.width as real && size.height == image.height as real
  {
    Size(image.width as real, image.height as real)
  }

  class ImageArea {
    /** `Image`: the loaded image. */
    const image: Bitmap
    /** `_imageSize`: the size the image is displayed at. */
    var imageSize: Size
    /** `_originalAreas`: the areas at the original size, or null. */
    const originalAreas: Option<AreaTable>
    /** `Areas`: the areas at the displayed size. */
    var areas: AreaTable

    ghost predicate Valid()
      reads this
    {
      && image.width > 0 && image.height > 0
      && (originalAreas.Some? ==> DistinctKeys(originalAreas.value) && Keys(areas) == Keys(originalAreas.value))
      && (originalAreas.None? ==> areas == [])
    }

    /** ImageArea(resourceName, imageAreas), with the image already loaded.
        Setting ImageSize to the original size recalculates nothing, because the
        original areas are assigned only after it; ResetAreas then copies them. */
    constructor (image: Bitmap, imageAreas: Option<AreaTable>)
      requires image.width > 0 && image.height > 0
      requires imageAreas.Some? ==> DistinctKeys(imageAreas.value)
      ensures Valid()
      ensures this.image == image && imageSize == OriginalSize(image)
      ensures originalAreas == imageAreas
      ensures areas == (if imageAreas.Some? then imageAreas.value else [])
    {
      this.image := image;
      imageSize := OriginalSize(image);
      originalAreas := imageAreas;
      areas := [];
      new;
      ResetAreas();
    }

    /** ResetAreas: the areas become a copy of the originals, when there are any. */
    method ResetAreas()
      modifies this`areas
      ensures originalAreas.Some? ==> areas == originalAreas.value
      ensures originalAreas.None? ==> areas == old(areas)
    {
      if originalAreas.Some? {
        areas := originalAreas.value;
      }
    }

    /** InArea(SKPoint): -1 when no area contains the point, else the key of the
        first area, in iteration order, that does. */
    function InArea(point: Point): (key: int)
      reads this
      ensures !AnyContains(areas, point) ==> key == -1
      ensures forall i :: IsFirstMatch(areas, point, i) ==> key == areas[i].key
      ensures key != -1 ==> exists i :: 0 <= i < |areas| && areas[i].key == key && areas[i].rect.Contains(point)
    {
      var key := FindArea(areas, point);
      assert key != -1 ==> IsFirstMatch(areas, point, FirstContaining(areas, point));
      key
    }

    /** CalculateAreas: without original areas, nothing happens. Otherwise every
        area is rebuilt from the originals scaled by (scaled size / original size)
        in X and Y, so the result does not depend on the areas before the call. */
    method CalculateAreas(scaledImageSize: Size)
      requires Valid()
      modifies this`areas
      ensures Valid()
      ensures originalAreas.None? ==> areas == old(areas)
      ensures originalAreas.Some? ==>
        areas == Rescaled(originalAreas.value, scaledImageSize.width / image.width as real,
                          scaledImageSize.height / image.height as real)
    {
      if originalAreas.None? {
        return;
      }
      ResetAreas();
      var widthRatio := scaledImageSize.width / OriginalSize(image).width;
      var heightRatio := scaledImageSize.height / OriginalSize(image).height;
      ghost var original := originalAreas.value;
      var i := 0;
      while i < |areas|
        invariant 0 <= i <= |areas| == |original|
        invariant forall j :: 0 <= j < i ==>
          areas[j] == Entry(original[j].key, original[j].rect.Scaled(widthRatio, heightRatio))
        invariant forall j :: i <= j < |areas| ==> areas[j] == original[j]
      {
        areas := areas[i := Entry(areas[i].key, areas[i].rect.Scaled(widthRatio, heightRatio))];
        i := i + 1;
      }
      assert areas == Rescaled(original, widthRatio, heightRatio);
      RescaledKeepsKeys(original, widthRatio, heightRatio);
    }

    /** The ImageSize setter: stores the size, then recalculates the areas for it. */
    method SetImageSize(value: Size)
      requires Valid()
      modifies this`imageSize, this`areas
      ensures Valid()
      ensures imageSize == value
      ensures originalAreas.None? ==> areas == old(areas)
      ensures originalAreas.Some? ==>
        areas == Rescaled(originalAreas.value, value.width / image.width as real,
                          value.height / image.height as real)
    {
      imageSize := value;
      CalculateAreas(value);
    }
  }

  /** Rescaling to the original size leaves every area as it was. */
  lemma OriginalSizeKeepsAreas(area: ImageArea)
    requires area.originalAreas.Some?
    requires area.image.width > 0 && area.image.height > 0
    ensures Rescaled(area.originalAreas.value,
                     OriginalSize(area.image).width / area.image.width as real,
                     OriginalSize(area.image).height / area.image.height as real)
         == area.originalAreas.value
  {
    assert OriginalSize(area.image).width / area.image.width as real == 1.0;
    assert OriginalSize(area.image).height / area.image.height as real == 1.0;
    RescaledByOne(area.originalAreas.value);
  }
}
