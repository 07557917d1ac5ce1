# Polygon structure of geogson

This project models the core of geogson's `Polygon`: an immutable geometry built
from an ordered set of rings, where ring 0 is the perimeter and the remaining
rings are holes. A polygon can only come into being through a validating
constructor that refuses an empty ring set and refuses any ring that is not
closed (a path is closed when it is non-empty and its first and last positions
are equal). The factory `of` lays the perimeter first and the holes after it in
their given order; the queries `linearRings`, `perimeter` and `holes` read the
stored rings back in that order.

Files and modules:

- `wrappers.dfy` (`Wrappers`): `Option`, standing for Java `null`, and `Result`, standing for a thrown exception.
- `positions.dfy` (`Positions`): `Position`, `LinearPositions` with `IsClosed`, `AreaPositions`.
- `geometry.dfy` (`Geometry`): `LineString`; `LinearRing` as the subset type of closed line strings; `MultiLineString` with `LineStrings`; the `GeometryType` discriminator.
- `polygon.dfy` (`Polygons`): the `Polygon` subset type and every operation of `Polygon.java`, with the lemmas about them.

`Polygon` is a subset type of `MultiLineString` whose constraint is
`IsPolygonRingSet`: at least one ring, every ring closed. So invariants "size ≥ 1"
and "all rings closed" hold of every polygon value by typing. `linearRings()`
re-wraps each stored path as a `LinearRing`, and it relies on that invariant to
do so without re-checking. This is the trust boundary: the rings are validated
once, at construction.

The constructor's check is a loop in the source, so it is modelled as the method
`CheckPositions` with a loop invariant. The constructor itself is the method
`NewPolygon`, which is proved equal to the pure function `FromPositions`. `Of`
and the lemmas build on `FromPositions`.

The code raises one kind of failure, Guava's `checkArgument` (Polygon.java:41
and :44), for an empty ring set and for an open ring alike, so the model has one
failure value, `IllegalArgument`.

## Model

| member | source | states |
|---|---|---|
| `Polygons.CheckPositions` | core/src/main/java/com/github/filosganga/geogson/model/Polygon.java:39-49 | succeeds iff there is at least one ring and every ring is closed; on success returns the ring set unchanged; otherwise fails with the argument error |
| `Polygons.FromPositions` | core/src/main/java/com/github/filosganga/geogson/model/Polygon.java:35-49 | the constructor gives a polygon exactly when the ring set is non-empty and all rings are closed; that polygon stores the given rings unchanged; every other input fails with the argument error |
| `Polygons.NewPolygon` | core/src/main/java/com/github/filosganga/geogson/model/Polygon.java:35-37 | the constructor as run, checking and then storing, gives the same outcome as `FromPositions` for every ring set |
| `Polygons.Of` | core/src/main/java/com/github/filosganga/geogson/model/Polygon.java:55-63 | always succeeds; stores the perimeter's path followed by each hole's path in order; `linearRings()` of the result is `[perimeter] + holes` |
| `Polygons.OfArray` | core/src/main/java/com/github/filosganga/geogson/model/Polygon.java:51-53 | the varargs overload always succeeds, and `linearRings()` is the perimeter followed by the array's holes in array order |
| `Polygons.Type` | core/src/main/java/com/github/filosganga/geogson/model/Polygon.java:65-68 | a polygon's discriminator is always the polygon tag |
| `Polygons.LinearRings` | core/src/main/java/com/github/filosganga/geogson/model/Polygon.java:70-72 | one linear ring per stored ring, same count, ring `i` wrapping stored path `i` |
| `Polygons.Perimeter` | core/src/main/java/com/github/filosganga/geogson/model/Polygon.java:74-76 | never the null default; wraps stored ring 0 |
| `Polygons.Holes` | core/src/main/java/com/github/filosganga/geogson/model/Polygon.java:78-80 | size − 1 rings, hole `i` wrapping stored ring `i + 1` |
| `Geometry.RingPositions` | core/src/main/java/com/github/filosganga/geogson/model/Polygon.java:59 | `transform(holes, positionsFn(...))`: one path per ring, same count and order, path `i` being ring `i`'s path, each closed |
| `Geometry.ToLinearRing` | core/src/main/java/com/github/filosganga/geogson/model/Polygon.java:71 | `toLinearRingFn()`: a line string with a closed path becomes a linear ring over the same path |
| `Geometry.MultiLineString.LineStrings` | core/src/main/java/com/github/filosganga/geogson/model/Polygon.java:71 | `lineStrings()`: one line string per stored path, same count, line string `i` over stored path `i` |
| `Polygons.GetFirst` | core/src/main/java/com/github/filosganga/geogson/model/Polygon.java:75 | `getFirst(…, null)`: the null default exactly when the sequence is empty, otherwise its first element |
| `Polygons.Skip` | core/src/main/java/com/github/filosganga/geogson/model/Polygon.java:79 | `skip(…, 1)`: the elements after the first `n`, in order, and none when there are fewer than `n` |
| `Polygons.EmptyRingSetFails` | core/src/main/java/com/github/filosganga/geogson/model/Polygon.java:41 | a ring set with zero rings is refused |
| `Polygons.OpenRingFails` | core/src/main/java/com/github/filosganga/geogson/model/Polygon.java:43-45 | one ring that is not closed, anywhere among the rings (first, middle or last), makes construction fail |
| `Polygons.ClosedRingsSucceed` | core/src/main/java/com/github/filosganga/geogson/model/Polygon.java:39-48 | a closed perimeter path followed by any number of closed hole paths is accepted and stored as given |
| `Polygons.OfPerimeterAndHoles` | core/src/main/java/com/github/filosganga/geogson/model/Polygon.java:55-80 | on a polygon built by `of`, `perimeter()` is the given perimeter and `holes()` is the given holes, in order |
| `Polygons.OfWithoutHoles` | core/src/main/java/com/github/filosganga/geogson/model/Polygon.java:51-53 | `of(ring)` with an empty holes array gives the single-ring polygon: `perimeter()` is the ring and `holes()` is empty |
| `Polygons.OfPerimeterHolesRoundTrip` | core/src/main/java/com/github/filosganga/geogson/model/Polygon.java:55-80 | `of(p.perimeter(), p.holes())` gives back a polygon equal to `p`, with the same ring sequence |
| `Polygons.LinearRingsRoundTrip` | core/src/main/java/com/github/filosganga/geogson/model/Polygon.java:70-80 | unwrapping `linearRings()` gives the stored paths; `linearRings()` is `perimeter()` followed by `holes()` |
| `Polygons.SquareWithHoleExample` | core/src/main/java/com/github/filosganga/geogson/model/Polygon.java:55-80 | a 4×4 square perimeter with one unit-square hole is accepted, and the perimeter and the single hole read back as given |
| `Polygons.OpenPathExample` | core/src/main/java/com/github/filosganga/geogson/model/Polygon.java:39-45 | the open path (0,0),(0,4),(4,4) passed to the constructor is refused rather than closed or truncated |

## Left out

- Guava's lazy, restartable `Iterable` views (`transform`, `skip`, `getFirst`, `asList`) become plain sequences computed from the stored rings. `GetFirst` and `Skip` give them the same results.
- `LinearGeometry.toLinearRingFn` and `positionsFn` are not part of this model. They are taken to wrap a path as a ring and to unwrap a ring to its path, without changing either.
- `LinearRing`'s own constructor check is not part of this model. A linear ring is any line string whose path is closed, and that is guaranteed by its type.
- Coordinates are integers, not `double`. Closure is structural equality of positions, with the optional elevation compared as a value.
- `MultiLineString`, `LineString` and the `Geometry` interface are reduced to what `Polygon` uses: stored paths and `lineStrings()`. The `type()` override becomes a tag of `GeometryType`. The full set of constants of the source's `Type` enum is not part of this model; the constants listed are an assumption.
- Java `null` arguments are not modelled, because Dafny values are never null: `new Polygon(null)` failing at `src.size()` (Polygon.java:41), a null perimeter failing at `perimeter.positions()` (:58) and a null hole failing in the transform or the list builder (:59).
- Exception classes and messages are not modelled; a refused construction is the failure value `IllegalArgument`.
- The JSON codec, `equals`/`hashCode`/`toString` and the rest of the geometry hierarchy are outside the polygon core.
