# ADNES.MAUI image helpers in Dafny

This project models the image bookkeeping in the ADNES.MAUI front end of the
ADNES NES emulator and proves properties of that model. It covers five parts:

- **LayeredImage** holds a base image, an ordered list of timed overlay layers, the image rendered from them, and a table of touch areas scaled to the display.
- **ImageLayer.Status** decides whether a layer is waiting (Delay), shown (Display) or past its duration (Expired) at a given time.
- **RingBuffer<T>** is a fixed array of reusable instances handed out in circular order.
- **ImageArea** is the older image-plus-touch-areas helper: a first-match hit test and rescaling from the original rectangles.
- **SKBitmapConverter** turns a 256x240 frame of palette indices into a colour bitmap, and fills a frame with black/white noise.

Modules:

| module | file | contents |
|---|---|---|
| `SkiaTypes` | `skia_types.dfy` | points, sizes, rectangles (`SKRect.Contains`, edge scaling) and opaque bitmaps with a width and height |
| `Nullables` | `nullables.dfy` | `Option`, the nullable reference of the optional area tables |
| `Sequences` | `sequences.dfy` | an order-preserving `Filter` (LINQ `Where`, "remove the matching element") and its lemmas |
| `AreaTables` | `area_tables.dfy` | the `Dictionary<int, SKRect>` of areas as a sequence of entries in iteration order; first-match lookup and rescaling |
| `ImageLayers` | `image_layers.dfy` | `ImageLayerStatus`, `ImageLayer` and its `Status` getter, C# `int` addition |
| `LayeredImages` | `layered_image.dfy` | the `LayeredImage` class and the reference definitions it is proved against |
| `RingBuffers` | `ring_buffer.dfy` | the `RingBuffer<T>` class over an `array<T>` and the cursor arithmetic |
| `ImageAreas` | `image_area.dfy` | the `ImageArea` class |
| `BitmapConverters` | `bitmap_converter.dfy` | `SKColor` packing, the palette conversion, and the `SKBitmapConverter` class over an `array2` bitmap |

Modelling choices:

- **Time.** Time is an integer number of milliseconds. The current time `now` is a parameter of every operation that reads `DateTime.Now`.
- **Layer ids.** A `Guid` is a natural number. `Guid.NewGuid()` is a choice of some id that no layer in the list has.
- **Rendered image.** A rendered image is a `Composite`: the base image plus the sequence of (image, location) pairs drawn on it, in drawing order. Pixels are opaque.
- **Dictionaries.** A dictionary that is only filled, copied and overwritten enumerates in insertion order. The area tables are therefore sequences of `(key, rect)` entries, and "first" means first in that order.
- **Rectangles.** `SKRect.Contains` is taken to include the left and top edges and to exclude the right and bottom edges. This is an assumption about the library.
- **Integers.** `DisplayDelay + DisplayDuration` is C# `int` addition, which wraps silently. The model wraps it modulo 2^32 (`ImageLayers.AddInt32`).

## Model

| member | source | states |
|---|---|---|
| `ImageLayers.ImageLayer.Status` | ADNES.MAUI/Helpers/ImageLayer.cs:15-30 | Delay while a positive delay runs, Expired once a positive duration has elapsed after delay + duration (summed as a wrapping int), Display otherwise; Delay only with a positive delay, Expired only with a positive duration once any delay is over, and always Display with neither |
| `ImageLayers.AddInt32` | ADNES.MAUI/Helpers/ImageLayer.cs:24 | the sum `DisplayDelay + DisplayDuration` is the exact sum when it fits in an `int`, and wraps by 2^32 when it overflows or underflows |
| `ImageLayers.StatusDelayExactly` | ADNES.MAUI/Helpers/ImageLayer.cs:20-21 | the status is Delay exactly when the delay is positive and `now` is before the added time plus the delay |
| `ImageLayers.StatusExpiredExactly` | ADNES.MAUI/Helpers/ImageLayer.cs:24-28 | assumes the delay plus duration does not overflow and the layer is not delayed; then the status is Expired exactly when the duration is positive and `now` is after added + delay + duration, and Display in every other case |
| `ImageLayers.NoDurationNeverExpires` | ADNES.MAUI/Helpers/ImageLayer.cs:24 | a duration of 0 or less never yields Expired, whatever the time |
| `ImageLayers.ImmediateIndefiniteAlwaysDisplayed` | ADNES.MAUI/Helpers/ImageLayer.cs:20-28 | with no delay and no duration the layer is always Display |
| `ImageLayers.StatusBoundaries` | ADNES.MAUI/Helpers/ImageLayer.cs:20-24 | for a non-negative delay and duration whose sum fits in an `int`, both comparisons are strict: at added + delay the layer is already Display, and at added + delay + duration it is still Display |
| `ImageLayers.StatusMonotone` | ADNES.MAUI/Helpers/ImageLayer.cs:20-28 | for fixed fields the status only moves forward in time: Display never returns to Delay, and Expired stays Expired |
| `ImageLayers.WrappedExpiryNeverDisplays` | ADNES.MAUI/Helpers/ImageLayer.cs:20-25 | when a positive delay plus a positive duration exceeds `int.MaxValue`, the wrapped expiry instant lies before the end of the delay, so the layer is never Display |
| `ImageLayers.StatusTimeline` | ADNES.MAUI/Helpers/ImageLayer.cs:15-30 | a concrete timeline with delay 100 and duration 200: Delay when added, Display 150 ms later, Expired 350 ms later |
| `SkiaTypes.Unscaled` | ADNES.MAUI/Helpers/LayeredImage.cs:124-126 | a point divided by non-zero factors gives back the original coordinates when multiplied by them again |
| `SkiaTypes.ScaledContains` | ADNES.MAUI/Helpers/LayeredImage.cs:157-161 | for positive ratios, a rectangle with every edge scaled contains a point exactly when the original rectangle contains the point divided by the ratios |
| `AreaTables.FirstContaining` | ADNES.MAUI/Helpers/ImageArea.cs:82 | returns the position of the first entry, in iteration order, whose rectangle contains the point, or the table length when none does |
| `AreaTables.FindArea` | ADNES.MAUI/Helpers/ImageArea.cs:77-83 | gives -1 when no rectangle contains the point, and otherwise the key of the first entry whose rectangle contains it |
| `AreaTables.RescaledKeepsKeys` | ADNES.MAUI/Helpers/LayeredImage.cs:157-161 | rescaling keeps the keys and their order, and keeps them distinct |
| `AreaTables.RescaledByOne` | ADNES.MAUI/Helpers/ImageArea.cs:105-111 | rescaling with both ratios equal to 1 gives the table back unchanged |
| `AreaTables.RescaledFindArea` | ADNES.MAUI/Helpers/LayeredImage.cs:146-161 | after rescaling by positive ratios, a hit test finds the same key as the original table does for the point divided by the ratios |
| `LayeredImages.WithoutProperties` | ADNES.MAUI/Helpers/LayeredImage.cs:262-291 | removal by ids keeps ids distinct, keeps exactly the layers whose id was not named, and is a no-op when no layer has a named id |
| `LayeredImages.WithoutMembers` | ADNES.MAUI/Helpers/LayeredImage.cs:266-271 | a layer survives removal exactly when it was in the list and its id was not named |
| `LayeredImages.RemoveAtIsWithout` | ADNES.MAUI/Helpers/LayeredImage.cs:266-271 | when ids are distinct, cutting out the first layer with an id is the same as removing every layer with that id, and the other layers keep their order |
| `LayeredImages.WithoutThenWithout` | ADNES.MAUI/Helpers/LayeredImage.cs:284-290 | removing one more id after a set of ids is the same as removing their union |
| `LayeredImages.FirstWithId` | ADNES.MAUI/Helpers/LayeredImage.cs:266 | the position of the first layer, in list order, with the id, or the list length when no layer has it (`FirstOrDefault` giving null) |
| `LayeredImages.DisplayLayers` | ADNES.MAUI/Helpers/LayeredImage.cs:320 | the layers drawn at `now` (`Where` Status is Display), in list order: only Display layers, and no more than the list holds |
| `LayeredImages.NothingDrawnExactly` | ADNES.MAUI/Helpers/LayeredImage.cs:311-328 | a full render draws nothing exactly when no layer is Display, which is why skipping the render is safe |
| `LayeredImages.ComposedInListOrder` | ADNES.MAUI/Helpers/LayeredImage.cs:320-328 | the composite of a list of layers is the composite of a prefix with the rest drawn on top of it |
| `LayeredImages.AppendedLayerOnTop` | ADNES.MAUI/Helpers/LayeredImage.cs:320-325 | an appended layer that is Display is drawn last, on top of all the others |
| `LayeredImages.HiddenLayerNotDrawn` | ADNES.MAUI/Helpers/LayeredImage.cs:320 | a Delay or Expired layer is not drawn, even though it stays in the list |
| `LayeredImages.ShownAreasSelection` | ADNES.MAUI/Helpers/LayeredImage.cs:192-202 | ShowAreas(-1) paints every area, and ShowAreas with a key present in the table paints exactly that one area |
| `LayeredImages.NoneShown` | ADNES.MAUI/Helpers/LayeredImage.cs:194-195 | a key other than -1 that no area has selects no area |
| `LayeredImages.DensityNormalization` | ADNES.MAUI/Helpers/LayeredImage.cs:124-131 | for the same areas, a point at pixel density d hits the same area as the point divided by d at density 1 |
| `LayeredImages.LayeredImage.constructor` | ADNES.MAUI/Helpers/LayeredImage.cs:86-94 | the image is a fresh copy of the base with nothing drawn, the areas are a copy of the given areas (empty when none are given), and the layer list is empty |
| `LayeredImages.LayeredImage.ResetAreas` | ADNES.MAUI/Helpers/LayeredImage.cs:107-111 | the areas become a copy of the base areas when there are any, and are otherwise left alone |
| `LayeredImages.LayeredImage.SetBaseImage` | ADNES.MAUI/Helpers/LayeredImage.cs:96-105 | reports a mismatch exactly when the width or height differs, and then changes nothing; otherwise it replaces the base and the image becomes the full composite over the new base |
| `LayeredImages.LayeredImage.InArea` | ADNES.MAUI/Helpers/LayeredImage.cs:118-132 | gives -1 for an empty table, for density 0, or when no area contains the point divided by the density; otherwise gives the key of the first area, in iteration order, that contains it |
| `LayeredImages.LayeredImage.BaseImageSize` | ADNES.MAUI/Helpers/LayeredImage.cs:44 | the size is the base image's width and height, and reading it leaves the image rendered as the full composite |
| `LayeredImages.LayeredImage.CalculateAreas` | ADNES.MAUI/Helpers/LayeredImage.cs:146-161 | without base areas nothing changes; otherwise the areas are the base table scaled by (scaled size / base size) in X and Y, whatever they were before, so a second call with the same size leaves the areas unchanged; keys stay those of the base table |
| `LayeredImages.LayeredImage.ShowAreas` | ADNES.MAUI/Helpers/LayeredImage.cs:187-210 | appends exactly one layer with a fresh id at (0,0), with no delay and no duration, whose image is the base with the selected areas painted over it; earlier layers are unchanged |
| `LayeredImages.LayeredImage.NewId` | ADNES.MAUI/Helpers/LayeredImage.cs:225 | the new id belongs to no layer in the list |
| `LayeredImages.LayeredImage.AddLayer` | ADNES.MAUI/Helpers/LayeredImage.cs:221-238 | appends exactly one layer with the given image, location, duration and delay, stamped `now`; the returned id is its id and was fresh; earlier layers are unchanged |
| `LayeredImages.LayeredImage.AddLayers` | ADNES.MAUI/Helpers/LayeredImage.cs:249-255 | returns one fresh id per bitmap, in input order, and appends one layer per bitmap in that same order |
| `LayeredImages.LayeredImage.RemoveLayer` | ADNES.MAUI/Helpers/LayeredImage.cs:262-273 | the new list is the old one without the layer of that id, in the same order; an absent id changes nothing |
| `LayeredImages.LayeredImage.RemoveLayers` | ADNES.MAUI/Helpers/LayeredImage.cs:280-292 | the new list is the old one without every layer whose id is named, in the same order; absent ids are skipped |
| `LayeredImages.LayeredImage.LayerRender` | ADNES.MAUI/Helpers/LayeredImage.cs:299-332 | an unforced render with nothing drawn and no Display layer changes nothing; in every case the image ends as a copy of the base with the Display layers drawn in list order, and the count is their number |
| `LayeredImages.LayeredImage.GetImage` | ADNES.MAUI/Helpers/LayeredImage.cs:25-34 | the Image getter returns the rendered image, which is the full composite at `now` |
| `RingBuffers.NextIndex` | ADNES.MAUI/Helpers/RingBuffer.cs:55 | the cursor moves to the next slot, and back to slot 0 after the last one |
| `RingBuffers.Advance` | ADNES.MAUI/Helpers/RingBuffer.cs:52-57 | after any number of GetNext calls the cursor is still a slot of the buffer |
| `RingBuffers.AdvanceWithinTurn` | ADNES.MAUI/Helpers/RingBuffer.cs:52-57 | within one turn, k GetNext calls move the cursor k slots forward, wrapping past the end at most once |
| `RingBuffers.FullTurnReturns` | ADNES.MAUI/Helpers/RingBuffer.cs:4-6 | Length consecutive GetNext calls bring the cursor back to where it started |
| `RingBuffers.StepsTo` | ADNES.MAUI/Helpers/RingBuffer.cs:52-57 | the number of GetNext calls from one slot to another is less than the length |
| `RingBuffers.TurnVisitsEverySlotOnce` | ADNES.MAUI/Helpers/RingBuffer.cs:4-6 | the first Length cursor positions are pairwise distinct, and every slot is among them |
| `RingBuffers.RingBuffer.constructor` | ADNES.MAUI/Helpers/RingBuffer.cs:37-46 | the buffer has `size` slots, each holding the initial value, and the cursor is at 0; `Length` stays `size`, since `buffer` is const |
| `RingBuffers.RingBuffer.Index` | ADNES.MAUI/Helpers/RingBuffer.cs:25 | the index is always a slot of the buffer, or 0 when the buffer is empty |
| `RingBuffers.RingBuffer.GetNext` | ADNES.MAUI/Helpers/RingBuffer.cs:52-57 | returns the instance under the cursor, advances the cursor by NextIndex, and leaves the contents alone |
| `RingBuffers.RingBuffer.Set` | ADNES.MAUI/Helpers/RingBuffer.cs:64-67 | only the given slot changes, and it then holds the value; the cursor does not move |
| `RingBuffers.RingBuffer.Get` | ADNES.MAUI/Helpers/RingBuffer.cs:74-77 | returns the instance in the given slot and changes nothing, so after Set(i, v) it returns v |
| `ImageAreas.ImageArea.constructor` | ADNES.MAUI/Helpers/ImageArea.cs:52-64 | the displayed size is the original size (the loaded image's width and height), and the areas are a copy of the given areas (empty when none are given) |
| `ImageAreas.ImageArea.ResetAreas` | ADNES.MAUI/Helpers/ImageArea.cs:66-70 | the areas become a copy of the originals when there are any, and are otherwise left alone |
| `ImageAreas.ImageArea.InArea` | ADNES.MAUI/Helpers/ImageArea.cs:77-83 | gives -1 when no area contains the point, the key of the first area that contains it otherwise, and any key it gives belongs to an area that contains the point |
| `ImageAreas.ImageArea.CalculateAreas` | ADNES.MAUI/Helpers/ImageArea.cs:97-113 | without original areas nothing changes; otherwise the areas are the originals scaled by (scaled / original) in X and Y independently, whatever they were before, so the operation is idempotent; keys stay the original keys |
| `ImageAreas.ImageArea.SetImageSize` | ADNES.MAUI/Helpers/ImageArea.cs:32-40 | stores the size, then the areas are recalculated for it |
| `ImageAreas.OriginalSizeKeepsAreas` | ADNES.MAUI/Helpers/ImageArea.cs:105-111 | rescaling to the image's own original size leaves every area equal to its original |
| `BitmapConverters.MakeColor` | ADNES.MAUI/Helpers/SKBitmapConverter.cs:22 | packing four channels into an SKColor gives a colour whose channels read back as given |
| `BitmapConverters.ColorFromChannels` | ADNES.MAUI/Helpers/SKBitmapConverter.cs:22 | every colour is the packing of its own four channels, so a colour is determined by its channels |
| `BitmapConverters.ConvertPalette` | ADNES.MAUI/Helpers/SKBitmapConverter.cs:19-23 | the converted palette has the same length and order as the input, and each entry keeps its red, green, blue and alpha |
| `BitmapConverters.PixelOffsetRoundTrip` | ADNES.MAUI/Helpers/SKBitmapConverter.cs:38 | pixel (x, y) reads byte y * 256 + x, which lies inside the 256x240 frame and gives back x and y |
| `BitmapConverters.PixelOffsetInjective` | ADNES.MAUI/Helpers/SKBitmapConverter.cs:34-40 | different pixels read different bytes |
| `BitmapConverters.SKBitmapConverter.constructor` | ADNES.MAUI/Helpers/SKBitmapConverter.cs:11-23 | the bitmap is a fresh 256x240 bitmap, and the palette is the converted input palette |
| `BitmapConverters.SKBitmapConverter.Render` | ADNES.MAUI/Helpers/SKBitmapConverter.cs:32-42 | every pixel (x, y) becomes the palette colour named by byte y * 256 + x, and the same bitmap is returned |
| `BitmapConverters.SKBitmapConverter.GenerateNoise` | ADNES.MAUI/Helpers/SKBitmapConverter.cs:49-56 | every byte of the buffer becomes 0x0d or 0x30, and the same buffer is returned |

## Left out

- Resource loading (`GetSKBitmapFromResourceAsync`, the resource-name constructors of `LayeredImage` and `ImageArea`) is file-system I/O. The constructors take an already decoded image instead.
- The render lock (`_renderLock`, `EnterScope`) is concurrency. Every operation is modelled as atomic.
- Skia drawing (`SKCanvas`, `SKPaint`, `DrawBitmap`, `DrawRect`, `Copy`, `Save`) is a foreign library. A render is modelled as the base image plus the ordered list of placements drawn on it. The ShowAreas overlay is the base image marked with the rectangles it fills; the fill colour is not modelled.
- The source reads `DateTime.Now` anew at each comparison, for each layer and in each `AddLayer` call. The model reads the clock once per operation, so `AddLayers` stamps every new layer with the same time, and `LayerRender` classifies all layers at one instant.
- Clock resolution, `DateTime` range limits and the conversion of milliseconds to ticks are not modelled. `AddMilliseconds` is exact integer addition.
- `Guid.NewGuid()` is modelled as a choice of an id that is absent from the list. Uniqueness across all time is not modelled, and the ShowAreas layer also gets a fresh id.
- The public setters of `Image`, `Areas` and `Layers`, and the public `Image` field of `ImageArea`, let callers replace state without any check. The model leaves them out, so the classes' invariants (distinct layer ids, area keys that match the base table) hold throughout.
- Default arguments (`displayDuration = 0`, `displayDelay = 0` of `AddLayer` and `AddLayers`, `area = -1` of `ShowAreas`, `forceRender = false` of `LayerRender`) are not modelled: callers pass every argument explicitly, which loses no behaviour.
- The `InArea(float x, float y)` overloads only build a point and call `InArea(SKPoint)`.
- `Dispose` does nothing.
- Reference aliasing is not modelled. `_baseAreas = imageAreas` in the `LayeredImage` constructor and `_originalAreas = imageAreas` in `ImageArea` keep the caller's dictionary by reference, and an `ImageLayer` is a mutable object that callers can reach through `Layers`. The model holds the base table, the original table and every layer as values, so a caller's later change to them is not seen. No caller in the repository makes such a change.
- LayeredImages.LayeredImage.constructor requires an image with positive dimensions. The source does not divide here; the requirement only keeps the class invariant that CalculateAreas needs, since CalculateAreas divides by the base size. With a zero dimension the source would get infinite or NaN rectangles there; real arithmetic has no such values.
- ImageAreas.ImageArea.constructor requires an image with positive dimensions. The source does not divide here (the early ImageSize set returns before dividing, because the original areas are still null); the requirement only keeps the class invariant that CalculateAreas needs, for the same reason as above.
- Floating-point rounding (`float` coordinates, the `(float)PixelDensity` cast) is not modelled. Coordinates and ratios are exact reals.
- At pixel density 0 the source divides by zero. The model gives the resulting answer, -1, directly: no finite rectangle contains an infinite or NaN point.
- The random roll in `GenerateNoise` is a nondeterministic choice in 0..9. The seed (`DateTime.Now.GetHashCode()`) and the distribution (six chances in ten of 0x0d) are not modelled.
- `Span<byte>` is modelled as an array.
- RingBuffers.RingBuffer.GetNext requires a non-empty buffer. On an empty buffer the source throws an index-out-of-range exception.
- RingBuffers.RingBuffer.Get and RingBuffers.RingBuffer.Set require an index inside the buffer. The source throws an index-out-of-range exception otherwise.
- RingBuffers.RingBuffer.constructor takes a `nat` size. The source throws an overflow exception for a negative size.
- BitmapConverters.SKBitmapConverter.Render requires a frame of at least 256 x 240 bytes, each a valid palette index. The source throws an index-out-of-range exception otherwise.
- The enum tables of areas (`EmulatorAreas`, `ControllerAreas`, `ConsoleAreas`) and the UI, view-model and text-rendering code are not part of this model.
