/**
 * The robot's collision-checked grid movement over a maze image, its
 * recording flags and the entry of its path playback.
 */
module Robots {
  import opened PathFinding

  /**
   * A maze image reduced to what movement looks at: for every pixel, whether
   * its colour is exactly white. Rows are indexed by y, columns by x.
   */
  datatype Raster = Raster(width: nat, height: nat, white: seq<seq<bool>>) {
    predicate WellFormed() {
      |white| == height && forall row :: 0 <= row < |white| ==> |white[row]| == width
    }
  }

  /** A raster whose rows all have the image's width. */
  type Image = r: Raster | r.WellFormed() witness Raster(0, 0, [])

  /**
   * The free-space test: a position is open exactly when it lies inside the
   * image and the pixel there is white. Outside the image no pixel is read.
   */
  predicate IsPathAvailable(m: Image, x: int, y: int)
    ensures IsPathAvailable(m, x, y) ==> 0 <= x < m.width && 0 <= y < m.height
    ensures 0 <= x < m.width && 0 <= y < m.height ==> (IsPathAvailable(m, x, y) <==> m.white[y][x])
  {
    if x < 0 || x >= m.width || y < 0 || y >= m.height then false
    else m.white[y][x]
  }

  /** One requested displacement, as passed to Robot.Move. */
  datatype Delta = Delta(dx: int, dy: int)

  /** The arrow keys of the robot window. */
  datatype ArrowKey = Up | Down | Left | Right

  /** The displacement each arrow key requests: one 10-pixel step along one axis. */
  function KeyDelta(k: ArrowKey): (d: Delta)
    ensures (d.dx == 0 && (d.dy == 10 || d.dy == -10)) || (d.dy == 0 && (d.dx == 10 || d.dx == -10))
    ensures k == Up || k == Down <==> d.dx == 0
    ensures k == Down || k == Right <==> d.dx + d.dy > 0
  {
    match k
    case Up => Delta(0, -10)
    case Down => Delta(0, 10)
    case Left => Delta(-10, 0)
    case Right => Delta(10, 0)
  }

  /** Whether a move by d from p is committed. */
  predicate Commits(m: Image, p: Point, d: Delta)
  {
    IsPathAvailable(m, p.x + d.dx, p.y + d.dy)
  }

  /**
   * The pose after one move request: the displaced pose when it is free,
   * the old pose otherwise.
   */
  function Step(m: Image, p: Point, d: Delta): (r: Point)
    ensures Commits(m, p, d) ==> r == Point(p.x + d.dx, p.y + d.dy) && IsPathAvailable(m, r.x, r.y)
    ensures !Commits(m, p, d) ==> r == p
  {
    if Commits(m, p, d) then Point(p.x + d.dx, p.y + d.dy) else p
  }

  /** The points one move request appends to the path while recording. */
  function StepRecord(m: Image, p: Point, d: Delta): seq<Point>
  {
    if Commits(m, p, d) then [Step(m, p, d)] else []
  }

  /** The pose after a sequence of move requests, in order. */
  function Run(m: Image, p: Point, ds: seq<Delta>): Point
    decreases |ds|
  {
    if ds == [] then p else Run(m, Step(m, p, ds[0]), ds[1..])
  }

  /** The points a recording robot appends during a sequence of move requests. */
  function Recorded(m: Image, p: Point, ds: seq<Delta>): seq<Point>
    decreases |ds|
  {
    if ds == [] then [] else StepRecord(m, p, ds[0]) + Recorded(m, Step(m, p, ds[0]), ds[1..])
  }

  /**
   * One more move request after a sequence: the pose is one Step from where
   * the sequence left it, and the recording grows by exactly that step's
   * points, so by one point exactly when the move commits. This is what a
   * further call of Robot.Move does to Run and Recorded.
   */
  lemma {:induction false} RunAppend(m: Image, p: Point, ds: seq<Delta>, d: Delta)
    ensures Run(m, p, ds + [d]) == Step(m, Run(m, p, ds), d)
    ensures Recorded(m, p, ds + [d]) == Recorded(m, p, ds) + StepRecord(m, Run(m, p, ds), d)
    ensures |Recorded(m, p, ds + [d])| == |Recorded(m, p, ds)| + (if Commits(m, Run(m, p, ds), d) then 1 else 0)
    decreases |ds|
  {
    if ds == [] {
      assert [] + [d] == [d];
    } else {
      assert (ds + [d])[0] == ds[0] && (ds + [d])[1..] == ds[1..] + [d];
      RunAppend(m, Step(m, p, ds[0]), ds[1..], d);
    }
  }

  /** A robot that starts on a white pixel inside the image stays on one, whatever it is asked to do. */
  lemma {:induction false} RunStaysFree(m: Image, p: Point, ds: seq<Delta>)
    requires IsPathAvailable(m, p.x, p.y)
    ensures IsPathAvailable(m, Run(m, p, ds).x, Run(m, p, ds).y)
    decreases |ds|
  {
    if ds != [] {
      RunStaysFree(m, Step(m, p, ds[0]), ds[1..]);
    }
  }

  /**
   * Moves by multiples of 10, the arrow keys' steps, keep the robot on the grid
   * of positions spaced 10 apart from where it started.
   */
  lemma {:induction false} RunStaysOnStepGrid(m: Image, p: Point, ds: seq<Delta>)
    requires forall i :: 0 <= i < |ds| ==> ds[i].dx % 10 == 0 && ds[i].dy % 10 == 0
    ensures (Run(m, p, ds).x - p.x) % 10 == 0 && (Run(m, p, ds).y - p.y) % 10 == 0
    decreases |ds|
  {
    if ds != [] {
      var q := Step(m, p, ds[0]);
      RunStaysOnStepGrid(m, q, ds[1..]);
      assert (Run(m, p, ds).x - q.x) % 10 == 0 && (q.x - p.x) % 10 == 0;
      assert (Run(m, p, ds).y - q.y) % 10 == 0 && (q.y - p.y) % 10 == 0;
    }
  }

  /** Arrow-key requests are multiples of 10, so a key-driven robot stays on its step grid. */
  lemma KeysStayOnStepGrid(m: Image, p: Point, keys: seq<ArrowKey>)
    ensures var ds := seq(|keys|, i requires 0 <= i < |keys| => KeyDelta(keys[i]));
            (Run(m, p, ds).x - p.x) % 10 == 0 && (Run(m, p, ds).y - p.y) % 10 == 0
  {
    var ds := seq(|keys|, i requires 0 <= i < |keys| => KeyDelta(keys[i]));
    forall i | 0 <= i < |ds| ensures ds[i].dx % 10 == 0 && ds[i].dy % 10 == 0 {
      assert ds[i] == KeyDelta(keys[i]);
    }
    RunStaysOnStepGrid(m, p, ds);
  }

  /**
   * While recording, a sequence of moves appends at most one point per move,
   * and every appended point is a white pixel inside the image.
   */
  lemma {:induction false} RecordedPointsFree(m: Image, p: Point, ds: seq<Delta>)
    ensures |Recorded(m, p, ds)| <= |ds|
    ensures forall i :: 0 <= i < |Recorded(m, p, ds)| ==>
              IsPathAvailable(m, Recorded(m, p, ds)[i].x, Recorded(m, p, ds)[i].y)
    decreases |ds|
  {
    if ds != [] {
      RecordedPointsFree(m, Step(m, p, ds[0]), ds[1..]);
    }
  }

  /**
   * When the last recorded point is the current pose, it still is after any
   * sequence of moves made while recording.
   */
  lemma {:induction false} RecordingTracksRun(m: Image, path: seq<Point>, p: Point, ds: seq<Delta>)
    requires path != [] && path[|path| - 1] == p
    ensures var after := path + Recorded(m, p, ds);
            after[|after| - 1] == Run(m, p, ds)
    decreases |ds|
  {
    if ds != [] {
      var q := Step(m, p, ds[0]);
      var path' := path + StepRecord(m, p, ds[0]);
      assert path'[|path'| - 1] == q;
      RecordingTracksRun(m, path', q, ds[1..]);
      assert path + Recorded(m, p, ds) == path' + Recorded(m, q, ds[1..]);
    }
  }

  class Robot {
    /** The maze image the robot moves in; it never changes. */
    const maze: Image
    var x: int
    var y: int
    var pathFinder: PathFinder
    var isRecording: bool
    var isPlaying: bool

    function Pose(): Point
      reads this
    {
      Point(x, y)
    }

    /** The robot stands on a white pixel inside the image. */
    predicate OnFreePixel()
      reads this
    {
      IsPathAvailable(maze, x, y)
    }

    /** While recording, the last recorded point is the current pose. */
    predicate RecordingInSync()
      reads this, pathFinder
    {
      isRecording ==> pathFinder.path != [] && pathFinder.path[|pathFinder.path| - 1] == Pose()
    }

    /**
     * A robot at the position its view was placed at, not recording and not
     * playing, with a path finder that loaded whatever was saved.
     */
    constructor (maze: Image, startX: int, startY: int, saved: SavedFile)
      ensures this.maze == maze && x == startX && y == startY
      ensures !isRecording && !isPlaying
      ensures fresh(pathFinder) && pathFinder.path == LoadedPath(saved)
    {
      this.maze := maze;
      x, y := startX, startY;
      pathFinder := new PathFinder(saved);
      isRecording, isPlaying := false, false;
    }

    /**
     * Moves by (dx, dy) when the target is free, leaving the pose unchanged
     * otherwise; a committed move made while recording appends the new pose.
     */
    method Move(dx: int, dy: int)
      modifies this`x, this`y, pathFinder`path
      ensures IsPathAvailable(maze, old(x) + dx, old(y) + dy) ==> x == old(x) + dx && y == old(y) + dy
      ensures !IsPathAvailable(maze, old(x) + dx, old(y) + dy) ==> x == old(x) && y == old(y)
      ensures Pose() == Step(maze, old(Pose()), Delta(dx, dy))
      ensures pathFinder.path == old(pathFinder.path) +
                (if isRecording then StepRecord(maze, old(Pose()), Delta(dx, dy)) else [])
      ensures old(OnFreePixel()) ==> OnFreePixel()
      ensures old(RecordingInSync()) ==> RecordingInSync()
    {
      var newX := x + dx;
      var newY := y + dy;
      if IsPathAvailable(maze, newX, newY) {
        x, y := newX, newY;
        if isRecording {
          pathFinder.AddPoint(x, y);
        }
      }
    }

    /**
     * Turns recording on with a new path finder, which reloads the saved path,
     * and appends the current pose to it.
     */
    method StartRecording(saved: SavedFile)
      modifies this`isRecording, this`pathFinder
      ensures isRecording
      ensures fresh(pathFinder) && pathFinder.path == LoadedPath(saved) + [Pose()]
      ensures RecordingInSync()
    {
      isRecording := true;
      pathFinder := new PathFinder(saved);
      pathFinder.AddPoint(x, y);
    }

    /** Turns recording off and hands back the path that is then saved. */
    method StopRecording() returns (written: seq<Point>)
      modifies this`isRecording
      ensures !isRecording
      ensures written == pathFinder.path
    {
      isRecording := false;
      written := pathFinder.GetPath();
    }

    /** Whether a playback request starts a playback. */
    predicate CanStartPlayback()
      reads this, pathFinder
      ensures CanStartPlayback() <==> !isPlaying && |pathFinder.path| > 0
    {
      !isPlaying && pathFinder.HasRecordedPath()
    }

    /**
     * Does nothing while a playback runs or when nothing is recorded;
     * otherwise marks the robot as playing and returns the points to be shown,
     * in order, one per frame.
     */
    method PlayRecordedPath() returns (frames: seq<Point>)
      modifies this`isPlaying
      ensures old(CanStartPlayback()) ==> isPlaying && frames == pathFinder.path
      ensures !old(CanStartPlayback()) ==> isPlaying == old(isPlaying) && frames == []
    {
      if isPlaying || !pathFinder.HasRecordedPath() {
        frames := [];
        return;
      }
      isPlaying := true;
      frames := pathFinder.GetPath();
    }

    /** One playback frame: the robot jumps to the frame's point without a free-space test. */
    method ApplyFrame(p: Point)
      modifies this`x, this`y
      ensures Pose() == p
    {
      x, y := p.x, p.y;
    }

    /** The end of a playback. */
    method FinishPlayback()
      modifies this`isPlaying
      ensures !isPlaying
    {
      isPlaying := false;
    }

    method GetX() returns (r: int)
      ensures r == x
    {
      r := x;
    }

    method GetY() returns (r: int)
      ensures r == y
    {
      r := y;
    }
  }
}
