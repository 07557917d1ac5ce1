/**
 * A polygon: an immutable multi line string whose stored rings are all closed
 * and number at least one. Ring 0 is the perimeter; the others are holes, in
 * the order they were given.
 */
module Polygons {
  import opened Wrappers
  import opened Positions
  import opened Geometry

  /** The one failure construction reports: an illegal argument. */
  datatype GeometryError = IllegalArgument

  /** A ring set a polygon accepts: at least one ring, and every ring closed. */
  predicate IsPolygonRingSet(src: AreaPositions) {
    src.Size() >= 1 && forall i :: 0 <= i < src.Size() ==> src.rings[i].IsClosed()
  }

  /** A polygon is a multi line string over an accepted ring set; no other value exists. */
  type Polygon = m: MultiLineString | IsPolygonRingSet(m.positions)
    witness MultiLineString(AreaPositions([LinearPositions([Position(0, 0, None)])]))

  // ---------------------------------------------------------------- construction

  /**
   * The validation run by the constructor: refuses an empty ring set, then
   * walks the rings in order and refuses at the first one that is not closed.
   */
  method CheckPositions(src: AreaPositions) returns (r: Result<AreaPositions, GeometryError>)
    ensures r.Success? <==> src.Size() >= 1 && forall i :: 0 <= i < src.Size() ==> src.rings[i].IsClosed()
    ensures r.Success? ==> r.value == src
    ensures r.Failure? ==> r.error == IllegalArgument
  {
    if !(src.Size() >= 1) {
      return Failure(IllegalArgument);
    }
    var children := src.Children();
    for k := 0 to |children|
      invariant forall i :: 0 <= i < k ==> children[i].IsClosed()
    {
      if !children[k].IsClosed() {
        return Failure(IllegalArgument);
      }
    }
    return Success(src);
  }

  /**
   * The value the constructor `Polygon(AreaPositions)` yields: a polygon storing
   * exactly the given rings when they form an accepted ring set, a failure otherwise.
   */
  function FromPositions(src: AreaPositions): (r: Result<Polygon, GeometryError>)
    ensures r.Success? <==> src.Size() >= 1 && forall i :: 0 <= i < src.Size() ==> src.rings[i].IsClosed()
    ensures r.Success? ==> r.value.positions == src
    ensures r.Failure? ==> r.error == IllegalArgument
  {
    if IsPolygonRingSet(src) then Success(MultiLineString(src)) else Failure(IllegalArgument)
  }

  /** The constructor `Polygon(AreaPositions)`: checks the ring set, then stores it. */
  method NewPolygon(src: AreaPositions) returns (r: Result<Polygon, GeometryError>)
    ensures r == FromPositions(src)
  {
    var checked := CheckPositions(src);
    if checked.Failure? {
      return Failure(checked.error);
    }
    return Success(MultiLineString(checked.value));
  }

  /**
   * `of(perimeter, holes)`: the ring set is the perimeter's path followed by each
   * hole's path in order. Every linear ring is closed, so this never fails.
   */
  function Of(perimeter: LinearRing, holes: seq<LinearRing>): (r: Result<Polygon, GeometryError>)
    ensures r.Success?
    ensures r.value.positions.rings == [perimeter.positions] + RingPositions(holes)
    ensures LinearRings(r.value) == [perimeter] + holes
  {
    var rings := [perimeter.positions] + RingPositions(holes);
    var result := FromPositions(AreaPositions(rings));
    assert LinearRings(result.value) == [perimeter] + holes by {
      var lr := LinearRings(result.value);
      forall i | 0 <= i < |lr| ensures lr[i] == ([perimeter] + holes)[i] {
        if i > 0 {
          assert rings[i] == holes[i - 1].positions;
        }
      }
    }
    result
  }

  /** The varargs `of(perimeter, holes...)`: the holes array viewed as a list. */
  function OfArray(perimeter: LinearRing, holes: array<LinearRing>): (r: Result<Polygon, GeometryError>)
    reads holes
    ensures r.Success?
    ensures LinearRings(r.value) == [perimeter] + holes[..]
  {
    Of(perimeter, holes[..])
  }

  // ---------------------------------------------------------------- queries

  /** `type()`: a polygon always reports the polygon discriminator. */
  function Type(p: Polygon): (t: GeometryType)
    ensures t.PolygonType?
  {
    PolygonType
  }

  /** `linearRings()`: every stored path re-wrapped as a linear ring, in stored order. */
  function LinearRings(p: Polygon): (r: seq<LinearRing>)
    ensures |r| == p.positions.Size()
    ensures forall i :: 0 <= i < |r| ==> r[i].positions == p.positions.rings[i]
  {
    var lineStrings := p.LineStrings();
    seq(|lineStrings|, i requires 0 <= i < |lineStrings| => ToLinearRing(lineStrings[i]))
  }

  /** Guava's `getFirst(iterable, null)`: the first element, or the null default when empty. */
  function GetFirst<T>(s: seq<T>): (r: Option<T>)
    ensures r.None? <==> |s| == 0
    ensures r.Some? ==> r.value == s[0]
  {
    if |s| == 0 then None else Some(s[0])
  }

  /** Guava's `skip(iterable, n)`: everything after the first `n` elements, if any. */
  function Skip<T>(s: seq<T>, n: nat): (r: seq<T>)
    ensures |r| == if n <= |s| then |s| - n else 0
    ensures forall i :: 0 <= i < |r| ==> r[i] == s[n + i]
  {
    if n <= |s| then s[n..] else []
  }

  /** `perimeter()`: the first linear ring; a polygon always has one, so never the null default. */
  function Perimeter(p: Polygon): (r: Option<LinearRing>)
    ensures r.Some?
    ensures r.value.positions == p.positions.rings[0]
  {
    GetFirst(LinearRings(p))
  }

  /** `holes()`: every linear ring after the first, in stored order. */
  function Holes(p: Polygon): (r: seq<LinearRing>)
    ensures |r| == p.positions.Size() - 1
    ensures forall i :: 0 <= i < |r| ==> r[i].positions == p.positions.rings[i + 1]
  {
    Skip(LinearRings(p), 1)
  }

  // ---------------------------------------------------------------- properties

  /** An empty ring set is refused. */
  lemma EmptyRingSetFails(src: AreaPositions)
    requires src.Size() == 0
    ensures FromPositions(src) == Failure(IllegalArgument)
  {
  }

  /** A ring set with an open ring is refused wherever that ring sits. */
  lemma OpenRingFails(before: seq<LinearPositions>, ring: LinearPositions, after: seq<LinearPositions>)
    requires !ring.IsClosed()
    ensures FromPositions(AreaPositions(before + [ring] + after)) == Failure(IllegalArgument)
  {
    assert (before + [ring] + after)[|before|] == ring;
  }

  /** A ring set of closed rings, however many, is accepted when it is not empty. */
  lemma ClosedRingsSucceed(perimeter: LinearPositions, holes: seq<LinearPositions>)
    requires perimeter.IsClosed()
    requires forall i :: 0 <= i < |holes| ==> holes[i].IsClosed()
    ensures FromPositions(AreaPositions([perimeter] + holes)) == Success(MultiLineString(AreaPositions([perimeter] + holes)))
  {
  }

  /** `of` keeps the perimeter first and the holes in their given order. */
  lemma OfPerimeterAndHoles(perimeter: LinearRing, holes: seq<LinearRing>)
    ensures Perimeter(Of(perimeter, holes).value) == Some(perimeter)
    ensures Holes(Of(perimeter, holes).value) == holes
  {
  }

  /** `of` with no holes gives a polygon of the perimeter alone. */
  lemma OfWithoutHoles(ring: LinearRing, holes: array<LinearRing>)
    requires holes.Length == 0
    ensures LinearRings(OfArray(ring, holes).value) == [ring]
    ensures Perimeter(OfArray(ring, holes).value) == Some(ring)
    ensures Holes(OfArray(ring, holes).value) == []
  {
  }

  /** Rebuilding a polygon from its perimeter and holes gives back the same polygon. */
  lemma OfPerimeterHolesRoundTrip(p: Polygon)
    ensures Of(Perimeter(p).value, Holes(p)) == Success(p)
  {
    var rings := p.positions.rings;
    var rebuilt := [Perimeter(p).value.positions] + RingPositions(Holes(p));
    assert rebuilt == rings by {
      forall i | 0 <= i < |rings| ensures rebuilt[i] == rings[i] {
        if i > 0 {
          assert rebuilt[i] == Holes(p)[i - 1].positions;
        }
      }
    }
  }

  /** The linear rings of a polygon are its stored paths, unwrapped again in order. */
  lemma LinearRingsRoundTrip(p: Polygon)
    ensures RingPositions(LinearRings(p)) == p.positions.rings
    ensures LinearRings(p) == [Perimeter(p).value] + Holes(p)
  {
  }

  // ---------------------------------------------------------------- worked examples

  function At(longitude: int, latitude: int): Position {
    Position(longitude, latitude, None)
  }

  /** A square perimeter with one square hole is accepted, and its rings read back as given. */
  lemma SquareWithHoleExample()
    ensures var perimeter := LineString(LinearPositions([At(0, 0), At(0, 4), At(4, 4), At(4, 0), At(0, 0)]));
            var hole := LineString(LinearPositions([At(1, 1), At(1, 2), At(2, 2), At(2, 1), At(1, 1)]));
            && Of(perimeter, [hole]).Success?
            && Perimeter(Of(perimeter, [hole]).value) == Some(perimeter)
            && Holes(Of(perimeter, [hole]).value) == [hole]
  {
  }

  /** An open path passed straight to the constructor is refused, not closed or truncated. */
  lemma OpenPathExample()
    ensures FromPositions(AreaPositions([LinearPositions([At(0, 0), At(0, 4), At(4, 4)])])) == Failure(IllegalArgument)
  {
    OpenRingFails([], LinearPositions([At(0, 0), At(0, 4), At(4, 4)]), []);
  }
}
