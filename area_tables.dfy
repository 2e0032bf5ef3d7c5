/** The id-to-rectangle tables behind touch hit-testing (a
    Dictionary<int, SKRect> in the source). A dictionary that is only filled and
    copied, never shrunk, enumerates in insertion order, so the table is a
    sequence of entries and "the first match" means the first in that order. */
module AreaTables {
  import opened SkiaTypes

  /** One key/value pair: an area id and its rectangle. */
  datatype Entry = Entry(key: int, rect: Rect)

  type AreaTable = seq<Entry>

  /** The keys of a table, in iteration order. */
  function Keys(t: AreaTable): seq<int> {
    seq(|t|, i requires 0 <= i < |t| => t[i].key)
  }

  /** A dictionary holds each key once. */
  predicate DistinctKeys(t: AreaTable) {
    forall i, j :: 0 <= i < j < |t| ==> t[i].key != t[j].key
  }

  /** `Any(x => x.Value.Contains(p))`. */
  predicate AnyContains(t: AreaTable, p: Point) {
    exists i :: 0 <= i < |t| && t[i].rect.Contains(p)
  }

  /** Entry i is the first, in iteration order, whose rectangle contains p. */
  predicate IsFirstMatch(t: AreaTable, p: Point, i: int) {
    0 <= i < |t| && t[i].rect.Contains(p) && forall j :: 0 <= j < i ==> !t[j].rect.Contains(p)
  }

  /** Position of the first entry whose rectangle contains p; |t| when none does. */
  function FirstContaining(t: AreaTable, p: Point): (i: nat)
    ensures i <= |t|
    ensures i < |t| ==> IsFirstMatch(t, p, i)
    ensures i == |t| ==> !AnyContains(t, p)
  {
    if t == [] then 0
    else if t[0].rect.Contains(p) then 0
    else 1 + FirstContaining(t[1..], p)
  }

  /** The shared hit-test of both InArea members: -1 when no rectangle contains
      the point, else the key of the first entry (`FirstOrDefault`) that does. */
  function FindArea(t: AreaTable, p: Point): (key: int)
    ensures !AnyContains(t, p) ==> key == -1
    ensures forall i :: IsFirstMatch(t, p, i) ==> key == t[i].key
  {
    if !AnyContains(t, p) then -1 else t[FirstContaining(t, p)].key
  }

  /** The table with every rectangle scaled by the two ratios, keys and order
      unchanged: what both CalculateAreas members compute from the base table. */
  function Rescaled(t: AreaTable, widthRatio: real, heightRatio: real): AreaTable {
    seq(|t|, i requires 0 <= i < |t| => Entry(t[i].key, t[i].rect.Scaled(widthRatio, heightRatio)))
  }

  /** Rescaling keeps the key set and its order. */
  lemma RescaledKeepsKeys(t: AreaTable, widthRatio: real, heightRatio: real)
    ensures Keys(Rescaled(t, widthRatio, heightRatio)) == Keys(t)
    ensures DistinctKeys(t) ==> DistinctKeys(Rescaled(t, widthRatio, heightRatio))
  {
  }

  /** Rescaling to the table's own size (both ratios 1) gives the table back. */
  lemma RescaledByOne(t: AreaTable)
    ensures Rescaled(t, 1.0, 1.0) == t
  {
  }

  /** A hit-test against a table rescaled by positive ratios finds the same key
      as a hit-test of the point brought back by those ratios against the base
      table: rescaling moves every area along with the image. */
  lemma RescaledFindArea(t: AreaTable, p: Point, widthRatio: real, heightRatio: real)
    requires widthRatio > 0.0 && heightRatio > 0.0
    ensures FindArea(Rescaled(t, widthRatio, heightRatio), p) == FindArea(t, Unscaled(p, widthRatio, heightRatio))
  {
    var s := Rescaled(t, widthRatio, heightRatio);
    var q := Unscaled(p, widthRatio, heightRatio);
    forall i | 0 <= i < |t|
      ensures s[i].rect.Contains(p) <==> t[i].rect.Contains(q)
    {
      ScaledContains(t[i].rect, p, widthRatio, heightRatio);
    }
    if AnyContains(t, q) {
      var k := FirstContaining(t, q);
      assert IsFirstMatch(s, p, k);
    } else {
      assert !AnyContains(s, p);
    }
  }
}
