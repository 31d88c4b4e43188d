# Occupancy-grid map and motion primitives of a ROS teaching robot, in Dafny

This project models two nodes of a TurtleBot course repository.

- **The lab 4 map** (`rbe3002_lab4/src/nodes/map.py`). The map holds an
  occupancy grid: width, height and a flat row-major array of cell values.
  It answers queries about single cells: clamping, bounds, indexing, value,
  walkable, wall, unknown, and walkable 4- and 8-neighbours. On every
  refresh it computes a configuration space in one pass. Every cell that the
  scan visits and that is above the obstacle threshold is painted occupied,
  together with its walkable 8-neighbours. The padded array is stored, and
  the cells it reports as obstacles are listed. The scan swaps the roles of
  width and height, so on a grid that is not square and at least two cells
  wide it does not visit every cell (see the end of this file).
- **The lab 2 robot** (`rbe3002_lab2/src/nodes/lab2.py`). Here the model
  covers the angle helpers `normalize_angle`, `solve_turn_dir` and
  `dist_between`, and the velocity commands that `send_speed`, `drive`,
  `rotate` and `go_to` publish.

Files:

- `grid.dfy` (module `OccupancyGrid`): the grid value and the cell queries,
  as functions.
- `cspace.dfy` (module `CSpace`): `calc_cspace` and `refresh_map`.
  - A class `Map` keeps the grid and the padded array as fields.
  - The two nested scans are methods over an `array`.
  - Both are proved equal to functional specifications, `Padded` and
    `HotCells`.
  - Lemmas characterise these cell by cell.
- `angles.dfy` (module `Angles`): the pure helpers. `normalize_angle` keeps
  its two while loops and is proved equal to a closed form.
- `motion.dfy` (module `Motion`): a class `Robot`.
  - Its fields are the pose that odometry writes, the drive start point and
    the log of every command sent.
  - `drive`, `rotate` and `go_to` are methods.
  - Each method's log is proved equal to a function of the pose snapshots
    it polls.
  - Lemmas state the ramp shapes and when the robot ends stopped.
- `scenarios.dfy` (module `CSpaceScenarios`): two worked grids for the
  configuration-space pass.

## Model

| member | source | states |
|---|---|---|
| OccupancyGrid.ForceInbound | rbe3002_lab4/src/nodes/map.py:34-38 | The clamped cell lies inside [0, width-1] x [0, height-1]. In-range coordinates are kept, negative ones become 0, and ones above the range become width-1 (or height-1). |
| OccupancyGrid.ForceInboundIdempotent | rbe3002_lab4/src/nodes/map.py:34-38 | Clamping an already clamped cell changes nothing. |
| OccupancyGrid.InBounds | rbe3002_lab4/src/nodes/map.py:83-84 | A cell in bounds lies inside the grid, and it is never in the last column or the last row. |
| OccupancyGrid.InBoundsIndex | rbe3002_lab4/src/nodes/map.py:83-84 | An in-bounds cell has its row-major index inside the array. The last column and the last row are never in bounds. |
| OccupancyGrid.Index | rbe3002_lab4/src/nodes/map.py:86-93 | Every cell of the width x height grid has an index in [0, width*height). |
| OccupancyGrid.IndexInjective | rbe3002_lab4/src/nodes/map.py:86-93 | Two cells whose columns are below the width share an index only if they are the same cell. |
| OccupancyGrid.GetCellValue | rbe3002_lab4/src/nodes/map.py:95-99 | Returns a value exactly when the cell is in bounds, and that value is the array entry at its index. Otherwise it returns IndexError. |
| OccupancyGrid.IsCellWalkable | rbe3002_lab4/src/nodes/map.py:101-114 | True exactly when the cell is in bounds and its value is below 0.196. The call never raises. |
| OccupancyGrid.IsCellWall | rbe3002_lab4/src/nodes/map.py:116-117 | Raises IndexError exactly outside the bounds. Otherwise it answers whether the value is above 0.55. A wall is never walkable. |
| OccupancyGrid.IsCellUnknown | rbe3002_lab4/src/nodes/map.py:119-120 | True exactly when the cell is in bounds and holds exactly 0.5. An unknown cell is neither walkable nor a wall. |
| OccupancyGrid.Neighbors4 | rbe3002_lab4/src/nodes/map.py:40-59 | At most four cells, each walkable and at Manhattan distance 1. |
| OccupancyGrid.Neighbors4Filtered | rbe3002_lab4/src/nodes/map.py:48-59 | The list is the walkable cells among left, right, up and down, in that order. The edge guards never change the result. |
| OccupancyGrid.Neighbors4Exactly | rbe3002_lab4/src/nodes/map.py:40-59 | A cell is listed if and only if it is walkable and at Manhattan distance 1. There are no duplicates. |
| OccupancyGrid.DiagonalNeighbors | rbe3002_lab4/src/nodes/map.py:72-79 | At most four cells, each walkable and diagonally adjacent. |
| OccupancyGrid.Neighbors8 | rbe3002_lab4/src/nodes/map.py:61-81 | At most eight cells, each walkable and at Chebyshev distance 1. The 4-neighbour list is a prefix. |
| OccupancyGrid.Neighbors8Filtered | rbe3002_lab4/src/nodes/map.py:69-81 | The list is the walkable cells among the four orthogonal and then the four diagonal candidates, in the source's order. |
| OccupancyGrid.Neighbors8Exactly | rbe3002_lab4/src/nodes/map.py:61-81 | A cell is listed if and only if it is walkable and at Chebyshev distance 1. There are no duplicates. |
| OccupancyGrid.WalkableAmongSpec | rbe3002_lab4/src/nodes/map.py:50-57 | Filtering by walkability keeps exactly the walkable candidates, never grows the list, and keeps a duplicate-free list duplicate-free. |
| CSpace.ScanIndexInRange | rbe3002_lab4/src/nodes/map.py:136-139 | When width <= height, every (x, y) with x < height and y < width reads inside the array. |
| CSpace.ScanOutOfRange | rbe3002_lab4/src/nodes/map.py:136-139 | When height > 0 and width > height, the read at (height-1, width-1) is past the end of the array, so the scan raises IndexError. |
| CSpace.ScanSkipsAndRepeats | rbe3002_lab4/src/nodes/map.py:136-139 | When 2 <= width < height, the scan never reads the last index, and it reads index width twice, at (width, 0) and at (0, 1). |
| CSpace.ScanSkipsLastCell | rbe3002_lab4/src/nodes/map.py:133-143 | When 2 <= width < height, the last cell keeps its original value after padding, even when it is above 90. |
| CSpace.PaintNeighbours | rbe3002_lab4/src/nodes/map.py:141-143 | The array afterwards is the old one with every clamped walkable 8-neighbour painted 100. |
| CSpace.PadObstacles | rbe3002_lab4/src/nodes/map.py:133-143 | The padding loops compute exactly Padded(grid). |
| CSpace.CollectHot | rbe3002_lab4/src/nodes/map.py:146-153 | The listing loops compute exactly HotCells(grid, padded). |
| CSpace.PaddedAt | rbe3002_lab4/src/nodes/map.py:133-143 | A cell of the padded array is 100 if some scanned source (original value > 90) hits it, as itself or as a walkable 8-neighbour. Otherwise it keeps its original value. |
| CSpace.PaddedKeepsOrOccupies | rbe3002_lab4/src/nodes/map.py:133-143 | Padding only ever writes 100: every cell keeps its value or becomes 100. |
| CSpace.PaddedCoversSources | rbe3002_lab4/src/nodes/map.py:139-143 | Every scanned source and each of its walkable 8-neighbours is 100 in the padded array. |
| CSpace.PaddedChangesOnlyNearSources | rbe3002_lab4/src/nodes/map.py:139-143 | A cell whose value changed is a scanned source or a walkable 8-neighbour of one. |
| CSpace.HotRowSpec | rbe3002_lab4/src/nodes/map.py:149-153 | One inner scan lists, in scan order, exactly the cells of its row that are above 90. |
| CSpace.HotRowsSpec | rbe3002_lab4/src/nodes/map.py:148-153 | The first x outer scans list, in scan order, exactly the cells above 90 whose first coordinate is below x. |
| CSpace.HotCellsSpec | rbe3002_lab4/src/nodes/map.py:145-153 | The reported list is strictly increasing in scan order. It holds exactly the scanned cells that are above 90 in the padded array, and so includes every source. |
| CSpace.Map.CalcCSpace | rbe3002_lab4/src/nodes/map.py:122-162 | Succeeds exactly when the scan fits. It then stores Padded(grid) as the c-space and returns the HotCells list. Otherwise it returns IndexError and leaves the c-space unchanged. |
| CSpace.Map.Refresh | rbe3002_lab4/src/nodes/map.py:10-17 | With no grid from the map service, it returns TypeError and changes nothing. With a grid, it stores that grid and then behaves as CalcCSpace. |
| CSpaceScenarios.CentreObstacle | rbe3002_lab4/src/nodes/map.py:133-143 | On a free 3 x 3 grid whose centre holds 100, the padded array is 100 at indices 0, 1, 3 and 4 and unchanged elsewhere. |
| CSpaceScenarios.RepaddingGrows | rbe3002_lab4/src/nodes/map.py:133-143 | On a free 4 x 4 grid with 100 in a corner, padding the padded array again changes it, so padding is not idempotent. |
| Angles.NormalAngle | rbe3002_lab2/src/nodes/lab2.py:190-202 | The result lies in [-pi, pi] and differs from the input by whole turns. Inputs in [-pi, pi] are kept. Inputs above pi land in (-pi, pi], and inputs below -pi land in [-pi, pi). |
| Angles.NormalizeAngle | rbe3002_lab2/src/nodes/lab2.py:190-202 | The two while loops end, and compute NormalAngle. |
| Angles.NormalAngleIdempotent | rbe3002_lab2/src/nodes/lab2.py:190-202 | Normalising twice equals normalising once. |
| Angles.SolveTurnDir | rbe3002_lab2/src/nodes/lab2.py:213-224 | The result is 1 or -1. It is 1 exactly when goal - current > pi/2, or when -pi/2 < goal - current < 0. |
| Angles.SolveTurnDirShift | rbe3002_lab2/src/nodes/lab2.py:213-224 | The answer depends only on the difference of the two angles. |
| Angles.DistSq | rbe3002_lab2/src/nodes/lab2.py:184-188 | The squared distance is non-negative. |
| Angles.DistSymmetric | rbe3002_lab2/src/nodes/lab2.py:184-188 | The distance is symmetric in its two points and is zero from a point to itself. |
| Angles.DistBelowIsRootBelow | rbe3002_lab2/src/nodes/lab2.py:184-188 | For the non-negative square root d of the squared distance, the square-free test used by the model holds exactly when d < bound. |
| Motion.RampUp | rbe3002_lab2/src/nodes/lab2.py:72-74 | The ramp up sends one command per loop step, and none of them turns. |
| Motion.RampDown | rbe3002_lab2/src/nodes/lab2.py:81-83 | The ramp down sends one command per loop step, and none of them turns. |
| Motion.HoldCommands | rbe3002_lab2/src/nodes/lab2.py:77-79 | The hold phase sends one command per snapshot it drives through. |
| Motion.HoldCommandsAt | rbe3002_lab2/src/nodes/lab2.py:79 | The k-th hold command is full speed with the heading correction -(angular_z * 13.1) of the k-th snapshot. |
| Motion.HoldCount | rbe3002_lab2/src/nodes/lab2.py:77-79 | The hold loop polls no more snapshots than it is given. |
| Motion.HoldCountSpec | rbe3002_lab2/src/nodes/lab2.py:77 | The hold loop continues through every snapshot still closer than distance - 0.5 to the start. It stops at the first snapshot that is not. |
| Motion.WaitCount | rbe3002_lab2/src/nodes/lab2.py:103-105 | The rotation loop polls no more snapshots than it is given. |
| Motion.WaitCountSpec | rbe3002_lab2/src/nodes/lab2.py:103 | The rotation loop waits through every snapshot more than 0.1 rad from the normalised goal. It stops at the first one within 0.1 rad. |
| Motion.RampUpRises | rbe3002_lab2/src/nodes/lab2.py:72-74 | For a non-negative speed, the ramp up starts at a stop. Its linear speed never decreases and never exceeds the target, and it never turns. |
| Motion.RampDownFalls | rbe3002_lab2/src/nodes/lab2.py:81-83 | For a non-negative speed, the ramp down's linear speed never increases and never exceeds the target. |
| Motion.RampDownMoving | rbe3002_lab2/src/nodes/lab2.py:81-83 | The ramp down starts at full speed and never turns. It never reaches zero itself, so the stop comes only from the commands after it. |
| Motion.DriveLogShape | rbe3002_lab2/src/nodes/lab2.py:60-89 | drive's log is 1000 ramp-up commands, then full speed, then one hold command per snapshot driven. On arrival, these are followed by the 1000-step ramp down and two stops. |
| Motion.RotateLogShape | rbe3002_lab2/src/nodes/lab2.py:91-108 | rotate first sends the turn rate. It sends a second command, a stop, exactly when some snapshot is aligned with the goal. |
| Motion.DriveEndsStopped | rbe3002_lab2/src/nodes/lab2.py:77-89 | For a non-zero speed, drive's last command is a stop exactly when the hold loop ends. |
| Motion.DriveTurnEndsStopped | rbe3002_lab2/src/nodes/lab2.py:125-126 | After the first rotation, go_to's last command is a stop exactly when both the drive and the final rotation converge. |
| Motion.GoToEndsStopped | rbe3002_lab2/src/nodes/lab2.py:110-126 | go_to's last command is a stop exactly when all three primitives converge. When they do, the log is: turn, stop, the drive's log, turn, stop. |
| Motion.GoToLastStop | rbe3002_lab2/src/nodes/lab2.py:110-126 | go_to's last command is a stop exactly when all three primitives converge. |
| Motion.GoToArrivedLog | rbe3002_lab2/src/nodes/lab2.py:110-126 | When all three primitives converge, go_to's log is turn, stop, the drive's log, turn, stop. |
| Motion.DriveTurnUsed | rbe3002_lab2/src/nodes/lab2.py:125-126 | The drive and the final rotation never read more snapshots than are left after the first rotation. |
| Motion.GoToUsed | rbe3002_lab2/src/nodes/lab2.py:124-126 | go_to never reads more snapshots than it is given. |
| Motion.GoToUsedSpec | rbe3002_lab2/src/nodes/lab2.py:103-126 | go_to reads every snapshot unless it arrives. When it arrives, it has read at least three, and the last one read has its yaw within 0.1 rad of the normalised goal yaw. |
| Motion.GoToUnturned | rbe3002_lab2/src/nodes/lab2.py:124 | If the first rotation never converges, go_to sends only that rotation's command and does not arrive. |
| Motion.GoToTurned | rbe3002_lab2/src/nodes/lab2.py:124-126 | Once the first rotation converges at snapshot w, go_to arrives exactly when the drive and the final rotation both converge on the snapshots after w. |
| Motion.GoToTurnedLog | rbe3002_lab2/src/nodes/lab2.py:124-126 | Once the first rotation converges at snapshot w, go_to's log is that rotation's log followed by the drive and the final rotation, started from the pose at w on the snapshots after it. |
| Motion.DriveTurnUndriven | rbe3002_lab2/src/nodes/lab2.py:125 | If the drive never converges, nothing follows its log, and go_to does not arrive. |
| Motion.DriveTurnDriven | rbe3002_lab2/src/nodes/lab2.py:125-126 | Once the drive converges, the final rotation follows. It uses the snapshots after the one that ended the hold loop. |
| Motion.Robot.constructor | rbe3002_lab2/src/nodes/lab2.py:15-21 | The pose starts at zero and nothing has been sent. |
| Motion.Robot.SendSpeed | rbe3002_lab2/src/nodes/lab2.py:38-58 | Appends exactly one command, with the given linear and angular speed, to the log. |
| Motion.Robot.RampUpPhase | rbe3002_lab2/src/nodes/lab2.py:72-75 | Appends the 1000 ramp-up commands and one full-speed command. |
| Motion.Robot.HoldPhase | rbe3002_lab2/src/nodes/lab2.py:77-79 | Appends one corrected command per snapshot driven through. It reports whether some snapshot ended the loop, how many snapshots were read, and the last pose read. |
| Motion.Robot.RampDownPhase | rbe3002_lab2/src/nodes/lab2.py:81-89 | Appends the 1000 ramp-down commands and two stops. |
| Motion.Robot.Drive | rbe3002_lab2/src/nodes/lab2.py:60-89 | Records the start point. Its log grows by exactly DriveLog of the start pose and the snapshots, and it reports whether it arrived and the pose it last read. |
| Motion.Robot.Rotate | rbe3002_lab2/src/nodes/lab2.py:91-108 | Normalises the goal angle. Its log grows by exactly RotateLog, and it reports whether it aligned and the pose it last read. |
| Motion.Robot.DriveThenTurn | rbe3002_lab2/src/nodes/lab2.py:125-126 | Runs drive and then, only if it converged, the final rotate on the snapshots drive left. Its log grows by exactly DriveTurnLog, it reports arrival exactly when DriveTurnArrives holds, it reads DriveTurnUsed snapshots, and the drive's start point is the pose it began at. |
| Motion.Robot.GoTo | rbe3002_lab2/src/nodes/lab2.py:110-126 | Runs rotate, drive and rotate on successive parts of the snapshots. Its log grows by exactly GoToLog, and it reports arrival exactly when GoToArrives holds. It reads GoToUsed snapshots and ends at the last pose read. Once the first rotation converges, the drive's start point is the pose it converged at; otherwise ix and iy are unchanged. |

## Left out

- ROS plumbing is not modelled: `rospy` services, publishers, subscribers, logging, `print`, `rospy.sleep` and the `GridCells` message.
  - `send_speed` publishing a Twist becomes appending a command to the robot's log.
  - `calc_cspace` publishing the cell list becomes returning it.
- `request_map` is not modelled. The map service's answer, a grid or None, is the parameter of `Refresh`.
- `grid_to_world` and `self.pubCspace`, which `calc_cspace` uses (map.py lines 152 and 161), are not defined in `map.py`. As written, `calc_cspace` would raise AttributeError at the first listed cell, or at the publish, before it stores the c-space. The model assumes working versions of both. It returns the list in grid coordinates rather than world points and does not model the resolution or origin.
- The odometry callback `update_odometry` runs concurrently with the primitives. The model reduces it to a sequence of pose snapshots, one per poll of a waiting loop.
  - The hold phase of `drive` sends the heading correction of the snapshot whose distance it has just compared.
  - Torn reads and pose changes between polls are not modelled.
- The polling loops in `drive` and `rotate` can wait forever. The model stops when the snapshots run out and reports that the primitive did not converge; the log then ends where the source would still be waiting.
- `math.sqrt`, `math.atan2`, `euler_from_quaternion`, `angle_to_goal` and `orientation_to_yaw` are not modelled.
  - `drive`'s distance test is decided on the squared distance, and `DistBelowIsRootBelow` ties that test to the square root.
  - `go_to`'s heading, distance and yaw are parameters of `GoTo`. `heading` stands for the bearing from the pose before the first rotation. `distance` stands for the distance from the pose at which the first rotation converged, since the source computes it after `rotate` returns. `yaw` stands for the goal orientation.
- `arc_to`, `smooth_drive`, `solve_arc_omega` and `run` are not part of this model.
- Floating point is not modelled. Values are exact reals, and pi is 3.141592653589793, the shortest decimal that rounds to the double `math.pi`. The double itself is larger by less than 1e-15.
- Cell values are reals. The integer/probability mix of the occupancy data is not modelled beyond the two threshold scales (0.196 / 0.55 / 0.5 in the cell queries, 90 / 100 in `calc_cspace`), both kept as written.
- Angles.DistSq: states non-negativity, symmetry and zero on equal points, but not that a zero distance implies equal points.
- Motion.Robot.constructor: the source's constructor never sets `angular_z`; the model starts it at 0.
- Motion.Robot.constructor: `ix` and `iy` are left unconstrained until the first drive, since the source sets them only there.

Quirks of the code that the model keeps:

- `is_cell_in_bounds` excludes the last column and the last row: `x < width - 1`, `y < height - 1`.
  - Those cells are never walkable, are never neighbours, and `get_cell_value` raises IndexError for them.
  - So on a 3 x 3 grid whose centre is 100, padding marks only the centre and the three other cells of the top-left 2 x 2 block (`CentreObstacle`).
- Inflation reaches only walkable 8-neighbours, because `neighbors_of_8` filters on walkability. Unknown or intermediate cells next to an obstacle stay as they are.
  - Clamping with `force_inbound` therefore never changes a neighbour, since every walkable cell is already in range.
- The inflation test reads the original array, so one pass dilates by exactly one cell. Padding the padded array again can grow it further, so padding is not idempotent (`RepaddingGrows`).
- `calc_cspace` runs its outer loop over `range(height)` as `x` and its inner loop over `range(width)` as `y`, then reads index `y * width + x`.
  - With the roles swapped, the scan stays inside the array only when `width <= height`. Even then, a grid at least two cells wide is visited cell for cell only when it is square.
  - With `2 <= width < height`, some indices are never read and others are read twice (`ScanSkipsAndRepeats`). A source in a skipped cell is never inflated; for example, the last cell always keeps its value (`ScanSkipsLastCell`).
  - For `height > 0` and `width > height`, the last read is past the end: the source raises IndexError partway through, before storing anything, and the model returns that error up front.
