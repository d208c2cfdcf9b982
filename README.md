# Robot maze: collision-checked movement and path recording

This project models the core of a JavaFX maze game in Dafny. A robot stands
on a maze image and moves in steps. A move is committed only when the target
pixel lies inside the image and is white. Otherwise the robot stays where it
is. While recording, every committed move appends the new pose to an
in-memory path. The path can later be played back.

- `pathfinder.dfy`, module `PathFinding`: the `Point` value and the
  `PathFinder` class. The class is an append-only sequence of points. Its
  constructor starts from whatever path was saved on disk, which is passed in
  as a `SavedFile` value: `Missing`, `Unreadable` or `Stored(points)`.
- `robot.dfy`, module `Robots`: the maze image, the free-space test
  `IsPathAvailable` and a pure specification of moves (`Step`, `Run`,
  `Recorded`) with lemmas. It also holds the `Robot` class, whose fields
  (`x`, `y`, `pathFinder`, `isRecording`, `isPlaying`) the methods update in
  place, as in the source.

The image is a rectangular `seq<seq<bool>>`, with `white[y][x]` telling
whether pixel `(x, y)` is exactly white. Coordinates are integers. The game
starts the robot at integer coordinates and moves it by ±10 per arrow key, so
the `(int)` cast before the pixel read is the identity here.

Some behaviour in the code is easy to miss, and the model keeps it as written:

- `startRecording` creates a new `PathFinder`, and that constructor reloads
  the saved path. So a new recording begins with the previously saved points,
  followed by the current pose.
- A committed move by `(0, 0)` on a free pixel still appends a point while
  recording.
- Playback frames move the robot without any free-space test.

Neither modelled file contains a four-corner footprint check, a maze solver
or detection of openings on the border. The free-space test looks at a single
pixel, and the model does the same.

## Model

| member | source | states |
|---|---|---|
| `PathFinding.PathFinder.constructor` | src/main/java/org/example/mazewithrobot/PathFinder.java:21-24 | the path is the stored list when a saved path could be read; it is empty when the file is missing or unreadable |
| `PathFinding.PathFinder.AddPoint` | src/main/java/org/example/mazewithrobot/PathFinder.java:32-34 | the path grows by exactly one; `Point(x, y)` is at the end; all earlier points are unchanged; afterwards a recorded path exists |
| `PathFinding.PathFinder.GetPath` | src/main/java/org/example/mazewithrobot/PathFinder.java:41-43 | returns the recorded points in insertion order and changes nothing |
| `PathFinding.PathFinder.HasRecordedPath` | src/main/java/org/example/mazewithrobot/PathFinder.java:77-79 | true iff at least one point is recorded |
| `Robots.IsPathAvailable` | src/main/java/org/example/mazewithrobot/Robot.java:124-134 | false outside `[0,width) × [0,height)`, so no pixel outside is read; inside, true iff the pixel is white |
| `Robots.KeyDelta` | src/main/java/org/example/mazewithrobot/RobotMain.java:97-100 | each arrow key requests one 10-pixel step along exactly one axis; up/down move vertically; down/right move in the positive direction |
| `Robots.Step` | src/main/java/org/example/mazewithrobot/Robot.java:61-74 | a free target is always taken, landing exactly on `(x+dx, y+dy)`; a target that is not free leaves the pose unchanged |
| `Robots.RunAppend` | src/main/java/org/example/mazewithrobot/Robot.java:61-74 | one more move after a sequence of moves is one `Step` from the pose the sequence reached; the recording grows by that step's points, so by exactly one point when the move commits and by none otherwise |
| `Robots.RunStaysFree` | src/main/java/org/example/mazewithrobot/Robot.java:61-74 | a robot that starts on a white in-bounds pixel is still on one after any sequence of moves |
| `Robots.RunStaysOnStepGrid` | src/main/java/org/example/mazewithrobot/Robot.java:62-67 | moves whose deltas are multiples of 10 keep the pose a multiple of 10 away from the start on each axis |
| `Robots.KeysStayOnStepGrid` | src/main/java/org/example/mazewithrobot/RobotMain.java:97-100 | any sequence of arrow-key moves keeps the robot on the 10-pixel grid around its start |
| `Robots.RecordedPointsFree` | src/main/java/org/example/mazewithrobot/Robot.java:65-72 | while recording, a sequence of moves appends at most one point per move, and every appended point is a white in-bounds pixel |
| `Robots.RecordingTracksRun` | src/main/java/org/example/mazewithrobot/Robot.java:65-72 | if the last recorded point is the current pose, it is still the current pose after any sequence of moves made while recording |
| `Robots.Robot.constructor` | src/main/java/org/example/mazewithrobot/Robot.java:45-53 | the pose is the start position; not recording, not playing; a fresh path finder that loaded the saved path |
| `Robots.Robot.Move` | src/main/java/org/example/mazewithrobot/Robot.java:61-74 | if the target `(x+dx, y+dy)` is free, the pose becomes exactly that; otherwise the pose is unchanged. While recording, a committed move appends exactly the new pose. A rejected move, or any move while not recording, leaves the path unchanged. Being on a free pixel and the last recorded point matching the pose are both preserved |
| `Robots.Robot.StartRecording` | src/main/java/org/example/mazewithrobot/Robot.java:79-83 | recording is on; the path finder is new and holds the saved path followed by the current pose, so the last point is the pose |
| `Robots.Robot.StopRecording` | src/main/java/org/example/mazewithrobot/Robot.java:88-91 | recording is off; returns the whole path that is saved; nothing else changes |
| `Robots.Robot.CanStartPlayback` | src/main/java/org/example/mazewithrobot/Robot.java:96-97 | a playback starts iff none is running and the path is non-empty |
| `Robots.Robot.PlayRecordedPath` | src/main/java/org/example/mazewithrobot/Robot.java:96-111 | does nothing while playing or with an empty path; otherwise sets the playing flag and returns the recorded points as the frames, in order |
| `Robots.Robot.ApplyFrame` | src/main/java/org/example/mazewithrobot/Robot.java:105-109 | a playback frame sets the pose to the frame's point, with no free-space test |
| `Robots.Robot.FinishPlayback` | src/main/java/org/example/mazewithrobot/Robot.java:113 | the end of a playback clears the playing flag |
| `Robots.Robot.GetX` | src/main/java/org/example/mazewithrobot/Robot.java:149-151 | returns the current x coordinate and changes nothing |
| `Robots.Robot.GetY` | src/main/java/org/example/mazewithrobot/Robot.java:158-160 | returns the current y coordinate and changes nothing |

The `Point` constructor (PathFinder.java:96-99) is the datatype constructor
`PathFinding.Point`, which stores exactly the coordinates it is given.

## Left out

- Saving to disk: `savePath` is Java object serialization. `StopRecording` returns the sequence it would write. Writing the file and its I/O errors are not modelled.
- Loading from disk: `loadPath` is modelled only by its outcome, the `SavedFile` value given to the constructors.
- A saved file holding anything other than a list of points is not modelled, and `StartRecording` does not cover either case below.
  - If the file holds another object, the cast in `loadPath` throws an uncaught `ClassCastException` out of the `PathFinder` constructor. In `startRecording` this happens after `isRecording` is set and before `pathFinder` is replaced, so recording continues into the old path finder without the current pose.
  - If the file holds `null`, the cast succeeds and the path becomes `null`. The constructor returns and `startRecording` installs the new path finder, then throws `NullPointerException` at `addPoint`. While recording stays on, each later committed move throws at `addPoint` after the pose has already changed, so nothing is recorded.
- Playback timing: the `Timeline` schedules one frame every 100 ms. The model gives the frames in order and offers `ApplyFrame` and `FinishPlayback` for the timer to call. The timing itself and the interleaving of frames with key presses are left to that external driver.
- `updateRobotPosition` only copies the pose into the on-screen image view. It is rendering and is left out.
- Coordinates are `double` in the source. The model uses integers, which is exact for the integer starts and ±10 steps the game uses. Fractional poses, and the truncating cast that would then matter, are not modelled.
- Colours: the source compares the pixel's colour with white. The model keeps only the result of that comparison per pixel.
- PathFinding.PathFinder.GetPath: the source returns the live list, so a caller could mutate it or see later appends. The model returns the sequence's value at the time of the call.
- The JavaFX application classes (window, buttons, key dispatch), `Car` (shape layout by `double` offsets and a rotation) and `solveMaze` are not part of this model. `solveMaze` is called from the UI but defined in none of the modelled files.
