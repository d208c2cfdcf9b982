/** The robot's in-memory path recording: an append-only list of points. */
module PathFinding {

  /** A recorded position of the robot. Coordinates are whole pixels. */
  datatype Point = Point(x: int, y: int)

  /**
   * What the constructor's attempt to load the previously saved path finds:
   * no file, a file that cannot be read back, or a stored list of points.
   */
  datatype SavedFile = Missing | Unreadable | Stored(points: seq<Point>)

  /** The list a fresh PathFinder starts from, given what is on disk. */
  function LoadedPath(saved: SavedFile): seq<Point>
  {
    match saved
    case Stored(points) => points
    case _ => []
  }

  class PathFinder {
    /** The recorded points, oldest first. */
    var path: seq<Point>

    /**
     * Starts from an empty list and replaces it with the saved one when a
     * saved path can be read; a missing or unreadable file leaves it empty.
     */
    constructor (saved: SavedFile)
      ensures saved.Stored? ==> path == saved.points
      ensures !saved.Stored? ==> path == []
    {
      path := LoadedPath(saved);
    }

    /** Appends one point; every earlier point stays where it was. */
    method AddPoint(x: int, y: int)
      modifies this`path
      ensures |path| == |old(path)| + 1
      ensures path[..|old(path)|] == old(path)
      ensures path[|path| - 1] == Point(x, y)
      ensures HasRecordedPath()
    {
      path := path + [Point(x, y)];
    }

    /** The recorded points in insertion order; changes nothing. */
    method GetPath() returns (points: seq<Point>)
      ensures points == path
    {
      points := path;
    }

    /** Whether at least one point has been recorded. */
    predicate HasRecordedPath()
      reads this
      ensures HasRecordedPath() <==> |path| > 0
    {
      path != []
    }
  }
}
