/**
 * The position layers a geometry is built from: a single coordinate, an ordered
 * path of coordinates, and an ordered set of paths (one per ring of an area).
 * Coordinates are abstracted to integers so that closure is structural equality.
 */
module Positions {
  import opened Wrappers

  /** A single coordinate: longitude, latitude and an optional elevation. */
  datatype Position = Position(longitude: int, latitude: int, elevation: Option<int>)

  /** An ordered sequence of positions; the order defines the path. */
  datatype LinearPositions = LinearPositions(points: seq<Position>) {

    function Size(): nat {
      |points|
    }

    /** A path is closed when it is non-empty and ends where it starts. */
    predicate IsClosed() {
      |points| > 0 && points[0] == points[|points| - 1]
    }
  }

  /** An ordered sequence of rings: the first is the outer boundary, the rest are holes. */
  datatype AreaPositions = AreaPositions(rings: seq<LinearPositions>) {

    function Size(): nat {
      |rings|
    }

    /** The rings in stored order. */
    function Children(): seq<LinearPositions> {
      rings
    }
  }
}
