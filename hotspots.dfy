/**
 * The hotspots of a navigation canvas (`clipRects`) and the hit test of its
 * pointer handler (manual.js:155-159, 169 and 172): the hotspot keys, in
 * `Object.keys(clipRects)` order, are filtered down to those whose scaled
 * rectangle contains the pointer, and the first of them wins.
 */
module Hotspots {

  import opened Options
  import opened Geometry

  /**
   * One entry of `clipRects`: its localised names (the properties of its
   * `name` object, in `Object.keys` order: language code, label) and its
   * rectangle in the image's natural coordinates.
   */
  datatype Hotspot = Hotspot(name: seq<(string, string)>, rect: Rect)

  /** The object `clipRects`: its keys in `Object.keys` order and the hotspot under each key. */
  datatype ClipRects = ClipRects(keys: seq<string>, spots: map<string, Hotspot>)

  /** What makes `keys` and `spots` one JavaScript object: distinct keys, the same key set. */
  predicate WellFormed(c: ClipRects) {
    && (forall i, j | 0 <= i < j < |c.keys| :: c.keys[i] != c.keys[j])
    && (forall k | k in c.keys :: k in c.spots)
    && (forall k | k in c.spots :: k in c.keys)
  }

  /** `Object.keys(hotspot.name)`. */
  function NameKeys(h: Hotspot): (langs: seq<string>)
    ensures forall j | 0 <= j < |h.name| :: h.name[j].0 in langs
    ensures forall l | l in langs :: exists j | 0 <= j < |h.name| :: h.name[j].0 == l
  {
    var langs := seq(|h.name|, i requires 0 <= i < |h.name| => h.name[i].0);
    assert forall i | 0 <= i < |langs| :: langs[i] == h.name[i].0;
    langs
  }

  /**
   * Whether the hotspot under `k`, scaled onto the canvas, contains the
   * pointer: for positive ratios, whether its natural rectangle contains the
   * pointer mapped back to natural coordinates.
   */
  predicate Hits(c: ClipRects, k: string, p: Point, hRatio: real, vRatio: real)
    requires k in c.spots
    ensures 0.0 < hRatio && 0.0 < vRatio ==>
      (Hits(c, k, p, hRatio, vRatio) <==> PointInRect(Point(p.x / hRatio, p.y / vRatio), c.spots[k].rect))
  {
    var r := c.spots[k].rect;
    if 0.0 < hRatio && 0.0 < vRatio then
      ScaledHitIsNaturalHit(r, p, hRatio, vRatio);
      PointInRect(p, Scale(r, hRatio, vRatio))
    else
      PointInRect(p, Scale(r, hRatio, vRatio))
  }

  /** `keys.filter(...)`: the keys whose scaled rectangle contains the pointer, in order. */
  function Detected(c: ClipRects, keys: seq<string>, p: Point, hRatio: real, vRatio: real): (hits: seq<string>)
    requires forall k | k in keys :: k in c.spots
    ensures |hits| <= |keys|
    ensures forall k :: k in hits <==> k in keys && Hits(c, k, p, hRatio, vRatio)
  {
    if keys == [] then []
    else
      var rest := Detected(c, keys[1..], p, hRatio, vRatio);
      if Hits(c, keys[0], p, hRatio, vRatio) then [keys[0]] + rest else rest
  }

  /** The hovered key a pointer position selects: the first detected key, or none. */
  function HitTest(c: ClipRects, p: Point, hRatio: real, vRatio: real): (hit: Option<string>)
    requires WellFormed(c)
    ensures hit.Some? ==> hit.value in c.keys && Hits(c, hit.value, p, hRatio, vRatio)
    ensures hit.None? <==> forall i | 0 <= i < |c.keys| :: !Hits(c, c.keys[i], p, hRatio, vRatio)
  {
    var hits := Detected(c, c.keys, p, hRatio, vRatio);
    if hits == [] then None
    else
      assert hits[0] in hits;
      Some(hits[0])
  }

  lemma {:induction false} DetectedHeadIsFirstHit(c: ClipRects, keys: seq<string>, p: Point, hRatio: real, vRatio: real, i: nat)
    requires forall k | k in keys :: k in c.spots
    requires i < |keys| && Hits(c, keys[i], p, hRatio, vRatio)
    requires forall j | 0 <= j < i :: !Hits(c, keys[j], p, hRatio, vRatio)
    ensures Detected(c, keys, p, hRatio, vRatio) != []
    ensures Detected(c, keys, p, hRatio, vRatio)[0] == keys[i]
  {
    if i > 0 {
      assert !Hits(c, keys[0], p, hRatio, vRatio);
      forall j | 0 <= j < i - 1
        ensures !Hits(c, keys[1..][j], p, hRatio, vRatio)
      {
        assert keys[1..][j] == keys[j + 1];
      }
      DetectedHeadIsFirstHit(c, keys[1..], p, hRatio, vRatio, i - 1);
    }
  }

  /**
   * The hit test selects the key at position `i` when its rectangle contains
   * the pointer and no earlier key's does.
   */
  lemma HitTestIsFirstHit(c: ClipRects, p: Point, hRatio: real, vRatio: real, i: nat)
    requires WellFormed(c)
    requires i < |c.keys| && Hits(c, c.keys[i], p, hRatio, vRatio)
    requires forall j | 0 <= j < i :: !Hits(c, c.keys[j], p, hRatio, vRatio)
    ensures HitTest(c, p, hRatio, vRatio) == Some(c.keys[i])
  {
    DetectedHeadIsFirstHit(c, c.keys, p, hRatio, vRatio, i);
  }

  lemma {:induction false} DetectedHeadPrecedes(c: ClipRects, keys: seq<string>, p: Point, hRatio: real, vRatio: real, i: nat)
    requires forall k | k in keys :: k in c.spots
    requires i < |keys| && Hits(c, keys[i], p, hRatio, vRatio)
    ensures Detected(c, keys, p, hRatio, vRatio) != []
    ensures exists m | 0 <= m <= i :: keys[m] == Detected(c, keys, p, hRatio, vRatio)[0]
  {
    if !Hits(c, keys[0], p, hRatio, vRatio) {
      assert keys[1..][i - 1] == keys[i];
      DetectedHeadPrecedes(c, keys[1..], p, hRatio, vRatio, i - 1);
      var m :| 0 <= m <= i - 1 && keys[1..][m] == Detected(c, keys[1..], p, hRatio, vRatio)[0];
      assert keys[m + 1] == Detected(c, keys, p, hRatio, vRatio)[0];
    }
  }

  /** Where two hotspots overlap at the pointer, the one declared later never wins. */
  lemma OverlapEarlierWins(c: ClipRects, p: Point, hRatio: real, vRatio: real, i: nat, j: nat)
    requires WellFormed(c)
    requires i < j < |c.keys|
    requires Hits(c, c.keys[i], p, hRatio, vRatio) && Hits(c, c.keys[j], p, hRatio, vRatio)
    ensures HitTest(c, p, hRatio, vRatio) != Some(c.keys[j])
  {
    DetectedHeadPrecedes(c, c.keys, p, hRatio, vRatio, i);
  }

  /**
   * An image of natural size 1000x500 shown at 500x250 (both ratios 0.5) with
   * one hotspot at (100, 100) of size 200x100: on the canvas it spans x from
   * 50 to 150 and y from 50 to 100.
   */
  lemma HalfScaleExample()
    ensures var c := ClipRects(["a"], map["a" := Hotspot([("default", "A")], Rect(100.0, 100.0, 200.0, 100.0))]);
      && HitTest(c, Point(150.0, 75.0), 0.5, 0.5) == Some("a")
      && HitTest(c, Point(50.0, 50.0), 0.5, 0.5) == Some("a")
      && HitTest(c, Point(49.0, 49.0), 0.5, 0.5) == None
      && HitTest(c, Point(150.0, 125.0), 0.5, 0.5) == None
  {
  }

}
