/**
 * Hit-testing the dragged card against the drop zones. Coordinates are
 * integers and are DOUBLED where a centre is involved, so that the card's
 * centre `left + width / 2` is exact: a doubled centre is compared with
 * doubled zone edges.
 */
module Geometry {
  import opened Types

  datatype Point = Point(x: int, y: int)

  /** An on-screen bounding rectangle, edges included. */
  datatype Rect = Rect(left: int, top: int, right: int, bottom: int)

  /** A zone as registered by the view: its id and its element, absent once unmounted. */
  datatype ZoneEntry = ZoneEntry(id: string, element: Option<Rect>)

  const Origin := Point(0, 0)

  /** Twice the centre of `card` moved by `offset`. */
  function DoubledCentre(card: Rect, offset: Point): (c: Point)
    ensures c.x == 2 * card.left + (card.right - card.left) + 2 * offset.x
    ensures c.y == 2 * card.top + (card.bottom - card.top) + 2 * offset.y
  {
    Point(card.left + card.right + 2 * offset.x, card.top + card.bottom + 2 * offset.y)
  }

  /** Whether the doubled point `c` lies in `r`, edges inclusive. */
  predicate Contains(r: Rect, c: Point) {
    2 * r.left <= c.x <= 2 * r.right && 2 * r.top <= c.y <= 2 * r.bottom
  }

  /** In plain coordinates, containment is the edge-inclusive box test. */
  lemma ContainsIsInclusiveBox(r: Rect, p: Point)
    ensures Contains(r, Point(2 * p.x, 2 * p.y)) <==> r.left <= p.x <= r.right && r.top <= p.y <= r.bottom
  {
  }

  /** A zone is hit when its element is present and contains the centre. */
  predicate Hits(e: ZoneEntry, c: Point) {
    e.element.Some? && Contains(e.element.value, c)
  }

  /** The id of the LAST zone in iteration order that is hit, if any. */
  function LastHit(zones: seq<ZoneEntry>, c: Point): Option<string> {
    if zones == [] then None
    else if Hits(zones[|zones| - 1], c) then Some(zones[|zones| - 1].id)
    else LastHit(zones[..|zones| - 1], c)
  }

  /**
   * LastHit is None exactly when no zone is hit, and otherwise names a hit
   * zone with no hit zone after it.
   */
  lemma {:induction false} LastHitCharacterised(zones: seq<ZoneEntry>, c: Point)
    ensures LastHit(zones, c).None? <==> forall i :: 0 <= i < |zones| ==> !Hits(zones[i], c)
    ensures LastHit(zones, c).Some? ==>
      exists i :: 0 <= i < |zones| && Hits(zones[i], c) && zones[i].id == LastHit(zones, c).value &&
        forall j :: i < j < |zones| ==> !Hits(zones[j], c)
  {
    if zones != [] {
      var n := |zones|;
      var init := zones[..n - 1];
      if !Hits(zones[n - 1], c) {
        LastHitCharacterised(init, c);
        assert forall i :: 0 <= i < n - 1 ==> init[i] == zones[i];
        if LastHit(init, c).Some? {
          var i :| 0 <= i < |init| && Hits(init[i], c) && init[i].id == LastHit(init, c).value &&
            forall j :: i < j < |init| ==> !Hits(init[j], c);
          assert Hits(zones[i], c) && zones[i].id == LastHit(zones, c).value;
          assert forall j :: i < j < n ==> !Hits(zones[j], c);
        }
      } else {
        assert Hits(zones[n - 1], c);
      }
    }
  }

  /** The zone LastHit names is one of the zones searched, so it lies in any set holding all their ids. */
  lemma {:induction false} LastHitWithin(zones: seq<ZoneEntry>, c: Point, ids: set<string>)
    requires forall e :: e in zones ==> e.id in ids
    ensures LastHit(zones, c).Some? ==> LastHit(zones, c).value in ids
  {
    if zones != [] && !Hits(zones[|zones| - 1], c) {
      var front := zones[..|zones| - 1];
      assert forall e :: e in front ==> e in zones;
      LastHitWithin(front, c, ids);
    } else if zones != [] {
      assert zones[|zones| - 1] in zones;
    }
  }

  /** When zones do not overlap at the centre, the one zone containing it is the one reported. */
  lemma SoleHitReported(zones: seq<ZoneEntry>, c: Point, k: nat)
    requires k < |zones| && Hits(zones[k], c)
    requires forall j :: 0 <= j < |zones| && j != k ==> !Hits(zones[j], c)
    ensures LastHit(zones, c) == Some(zones[k].id)
  {
    LastHitCharacterised(zones, c);
  }

  /**
   * With overlapping zones the later one wins: of two zones containing the
   * centre, the one further along is found when no zone after it is hit.
   */
  lemma OverlapLaterZoneWins(zones: seq<ZoneEntry>, c: Point, i: nat, j: nat)
    requires i < j < |zones| && Hits(zones[i], c) && Hits(zones[j], c)
    requires forall k :: j < k < |zones| ==> !Hits(zones[k], c)
    ensures LastHit(zones, c) == Some(zones[j].id)
  {
    LastHitCharacterised(zones, c);
  }

  /** The hit-test loop: every zone whose centre test passes overwrites the previous find. */
  method FindZone(zones: seq<ZoneEntry>, c: Point) returns (found: Option<string>)
    ensures found == LastHit(zones, c)
  {
    found := None;
    var i := 0;
    while i < |zones|
      invariant 0 <= i <= |zones|
      invariant found == LastHit(zones[..i], c)
    {
      var e := zones[i];
      assert zones[..i + 1][..i] == zones[..i];
      if e.element.Some? {
        var r := e.element.value;
        if 2 * r.left <= c.x && c.x <= 2 * r.right && 2 * r.top <= c.y && c.y <= 2 * r.bottom {
          found := Some(e.id);
        }
      }
      i := i + 1;
    }
    assert zones[..i] == zones;
  }
}
