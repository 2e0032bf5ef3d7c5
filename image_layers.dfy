/** ImageLayer and its time-derived ImageLayerStatus. Time is an integer number
    of milliseconds (DateTime as milliseconds since DateTime.MinValue) and the
    current time is passed in as `now`. */
module ImageLayers {
  import opened SkiaTypes

  /** The range of C# `int`. */
  const Int32Min: int := -0x8000_0000
  const Int32Max: int := 0x7fff_ffff

  type Int32 = x: int | Int32Min <= x <= Int32Max

  /** C# `int` addition in the default unchecked context: the sum wraps modulo 2^32. */
  function AddInt32(a: Int32, b: Int32): (s: Int32)
    ensures Int32Min <= a + b <= Int32Max ==> s == a + b
    ensures a + b > Int32Max ==> s == a + b - 0x1_0000_0000
    ensures a + b < Int32Min ==> s == a + b + 0x1_0000_0000
  {
    (a + b + 0x8000_0000) % 0x1_0000_0000 - 0x8000_0000
  }

  /** `default(DateTime)`, the timestamp of a layer whose timestamp was never set. */
  const DateTimeMinValue: int := 0

  /** A Guid; only its identity matters. */
  type LayerId = nat

  /** ImageLayerStatus: whether a layer is waiting, shown, or past its duration. */
  datatype ImageLayerStatus = Delay | Display | Expired

  /** ImageLayer: an image drawn at `location` over a base image, from
      `displayDelay` ms after it was added, for `displayDuration` ms (0: for ever). */
  datatype ImageLayer = ImageLayer(
    id: LayerId,
    image: Bitmap,
    location: Point,
    layerAddedTimestamp: int,
    displayDelay: Int32,
    displayDuration: Int32)
  {
    /** The Status getter. The expiry instant adds delay and duration as C#
        ints, so their sum wraps when it exceeds int.MaxValue. */
    function Status(now: int): (s: ImageLayerStatus)
      ensures s == Delay ==> displayDelay > 0
      ensures s == Expired ==> displayDuration > 0 && (displayDelay <= 0 || now >= layerAddedTimestamp + displayDelay)
      ensures displayDelay <= 0 && displayDuration <= 0 ==> s == Display
    {
      if displayDelay > 0 && now < layerAddedTimestamp + displayDelay then Delay
      else if displayDuration > 0 && now > layerAddedTimestamp + AddInt32(displayDelay, displayDuration) then Expired
      else Display
    }

    /** The sum delay + duration is an `int` without wrapping. */
    predicate NoOverflow() {
      displayDelay + displayDuration <= Int32Max
    }
  }

  /** Delay exactly when a positive delay has not yet elapsed. */
  lemma StatusDelayExactly(l: ImageLayer, now: int)
    ensures l.Status(now) == Delay <==> l.displayDelay > 0 && now < l.layerAddedTimestamp + l.displayDelay
  {
  }

  /** Without wrap-around: once not delayed, Expired exactly when a positive
      duration has elapsed after the delay; Display in every other case. */
  lemma StatusExpiredExactly(l: ImageLayer, now: int)
    requires l.NoOverflow()
    requires l.Status(now) != Delay
    ensures l.Status(now) == Expired
        <==> l.displayDuration > 0 && now > l.layerAddedTimestamp + l.displayDelay + l.displayDuration
    ensures l.Status(now) == Display
        <==> !(l.displayDuration > 0 && now > l.layerAddedTimestamp + l.displayDelay + l.displayDuration)
  {
  }

  /** A duration of 0 (or less) never expires. */
  lemma NoDurationNeverExpires(l: ImageLayer, now: int)
    requires l.displayDuration <= 0
    ensures l.Status(now) != Expired
  {
  }

  /** No delay and no duration: always displayed. */
  lemma ImmediateIndefiniteAlwaysDisplayed(l: ImageLayer, now: int)
    requires l.displayDelay <= 0 && l.displayDuration <= 0
    ensures l.Status(now) == Display
  {
  }

  /** The boundaries are strict: at the end of the delay and at the end of the
      duration the layer is displayed. */
  lemma StatusBoundaries(l: ImageLayer)
    requires l.displayDelay >= 0 && l.displayDuration >= 0 && l.NoOverflow()
    ensures l.Status(l.layerAddedTimestamp + l.displayDelay) == Display
    ensures l.Status(l.layerAddedTimestamp + l.displayDelay + l.displayDuration) == Display
  {
  }

  /** Status moves forward in time only: Delay, then Display, then Expired. */
  lemma StatusMonotone(l: ImageLayer, earlier: int, later: int)
    requires earlier <= later
    ensures l.Status(earlier) == Display ==> l.Status(later) != Delay
    ensures l.Status(earlier) == Expired ==> l.Status(later) == Expired
    ensures l.Status(later) == Delay ==> l.Status(earlier) == Delay
  {
  }

  /** A layer whose delay plus duration exceeds int.MaxValue is never displayed:
      the wrapped expiry instant lies before the end of the delay, so the layer
      goes from Delay straight to Expired. */
  lemma WrappedExpiryNeverDisplays(l: ImageLayer, now: int)
    requires l.displayDelay > 0 && l.displayDuration > 0 && !l.NoOverflow()
    ensures l.Status(now) != Display
  {
  }

  /** Delay 100 ms, duration 200 ms: Delay when added, Display 150 ms later,
      Expired 350 ms later. */
  lemma StatusTimeline(l: ImageLayer)
    requires l.displayDelay == 100 && l.displayDuration == 200
    ensures l.Status(l.layerAddedTimestamp) == Delay
    ensures l.Status(l.layerAddedTimestamp + 150) == Display
    ensures l.Status(l.layerAddedTimestamp + 350) == Expired
  {
  }
}
