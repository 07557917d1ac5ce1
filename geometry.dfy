/**
 * The geometry wrappers over the position layers that a polygon builds on:
 * a line string, a linear ring (a line string known to be closed) and a
 * multi line string (one line string per stored path).
 */
module Geometry {
  import opened Wrappers
  import opened Positions

  /** The discriminator returned by a geometry's `type()`. */
  datatype GeometryType =
    | PointType | MultiPointType | LineStringType | LinearRingType
    | MultiLineStringType | PolygonType | MultiPolygonType | GeometryCollectionType

  /** A geometry that owns one path, open or closed. */
  datatype LineString = LineString(positions: LinearPositions)

  /** A line string whose path is closed. */
  type LinearRing = l: LineString | l.positions.IsClosed()
    witness LineString(LinearPositions([Position(0, 0, None)]))

  /** Re-wraps a line string as a linear ring, trusting that its path is closed. */
  function ToLinearRing(l: LineString): (r: LinearRing)
    requires l.positions.IsClosed()
    ensures r.positions == l.positions
  {
    l
  }

  /** The path backing a linear ring. */
  function RingPositions(rings: seq<LinearRing>): (ps: seq<LinearPositions>)
    ensures |ps| == |rings|
    ensures forall i :: 0 <= i < |rings| ==> ps[i] == rings[i].positions && ps[i].IsClosed()
  {
    seq(|rings|, i requires 0 <= i < |rings| => rings[i].positions)
  }

  /** A geometry that owns an ordered set of paths. */
  datatype MultiLineString = MultiLineString(positions: AreaPositions) {

    /** One line string per stored path, in stored order. */
    function LineStrings(): (ls: seq<LineString>)
      ensures |ls| == positions.Size()
      ensures forall i :: 0 <= i < |ls| ==> ls[i].positions == positions.rings[i]
    {
      var children := positions.Children();
      seq(|children|, i requires 0 <= i < |children| => LineString(children[i]))
    }
  }
}
