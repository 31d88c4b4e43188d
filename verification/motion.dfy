/** The motion primitives of lab 2 (drive, rotate, go_to) as a robot object
    that appends every velocity command it sends to a log. The pose fields
    are written by the odometry callback while a primitive runs; here the
    successive values its polling loops read are given as a sequence of
    snapshots, one per poll. */
module Motion {
  import opened Angles

  /** One send_speed: forward speed (m/s) and turn rate (rad/s). */
  datatype Command = Command(linear: real, angular: real)

  /** What update_odometry stores: position, yaw and angular rate. */
  datatype Pose = Pose(x: real, y: real, theta: real, angularZ: real)

  /** Number of steps of each speed ramp in drive. */
  const RampSteps: nat := 1000
  /** drive stops holding speed this far (m) before the requested distance. */
  const DriveTolerance: real := 0.5
  /** Proportional gain of drive's heading correction. */
  const HeadingGain: real := 13.1
  /** rotate stops within this angle (rad) of the goal. */
  const RotateTolerance: real := 0.1
  /** go_to's turn rate (rad/s) and forward speed (m/s). */
  const RotationSpeed: real := 2.84
  const DriveSpeed: real := 0.22

  const Stop: Command := Command(0.0, 0.0)

  function AbsReal(a: real): real { if a < 0.0 then -a else a }

  /** The fraction of full speed sent at step k of the ramp up. */
  function UpFactor(k: int): real { k as real / 1000.0 }

  /** The fraction of full speed sent at step k of the ramp down. */
  function DownFactor(k: int): real { (1000 - k) as real / 1000.0 }

  // ---------------------------------------------------------------------
  // The command sequences.

  /** The first n commands of drive's ramp up: step x sends
      linear_speed * x / 1000. */
  function RampUp(v: real, n: nat): (r: seq<Command>)
    ensures |r| == n
    ensures forall k :: 0 <= k < n ==> r[k].angular == 0.0
  {
    seq(n, k requires 0 <= k < n => Command(v * UpFactor(k), 0.0))
  }

  /** The first n commands of drive's ramp down: step x sends
      linear_speed * (1000 - x) / 1000. */
  function RampDown(v: real, n: nat): (r: seq<Command>)
    ensures |r| == n
    ensures forall k :: 0 <= k < n ==> r[k].angular == 0.0
  {
    seq(n, k requires 0 <= k < n => Command(v * DownFactor(k), 0.0))
  }

  /** The hold phase sends full speed with the heading correction
      -(angular_z * kP) of each snapshot it drives through. */
  function HoldCommands(v: real, feed: seq<Pose>): (r: seq<Command>)
    ensures |r| == |feed|
  {
    if feed == [] then []
    else HoldCommands(v, feed[..|feed| - 1]) + [Command(v, -(feed[|feed| - 1].angularZ * HeadingGain))]
  }

  /** drive's loop test: the robot is still closer than distance - TOLERANCE
      to the point (ix, iy) it started from. */
  predicate Short(ix: real, iy: real, distance: real, p: Pose)
  {
    DistBelow(ix, iy, p.x, p.y, distance - DriveTolerance)
  }

  /** The number of snapshots the hold phase drives through. */
  function HoldCount(ix: real, iy: real, distance: real, feed: seq<Pose>): (n: nat)
    ensures n <= |feed|
  {
    if feed == [] || !Short(ix, iy, distance, feed[0]) then 0
    else 1 + HoldCount(ix, iy, distance, feed[1..])
  }

  /** The hold phase drives through every snapshot before the first one at
      which the robot has arrived, and stops at that one. */
  lemma {:induction false} HoldCountSpec(ix: real, iy: real, distance: real, feed: seq<Pose>)
    ensures var n := HoldCount(ix, iy, distance, feed);
            (forall k :: 0 <= k < n ==> Short(ix, iy, distance, feed[k]))
            && (n < |feed| ==> !Short(ix, iy, distance, feed[n]))
  {
    if feed != [] && Short(ix, iy, distance, feed[0]) {
      HoldCountSpec(ix, iy, distance, feed[1..]);
    }
  }

  /** Everything drive sends when started at pose start and polled with
      feed: ramp up, full speed, the hold phase, and, once a snapshot shows
      the distance covered, ramp down and two stops. If no snapshot ever does,
      the source never leaves the hold loop, and the log ends there. */
  function DriveLog(v: real, distance: real, start: Pose, feed: seq<Pose>): seq<Command>
  {
    var n := HoldCount(start.x, start.y, distance, feed);
    RampUp(v, RampSteps) + [Command(v, 0.0)] + HoldCommands(v, feed[..n])
    + (if n < |feed| then RampDown(v, RampSteps) + [Stop, Stop] else [])
  }

  /** rotate's loop test, negated: the yaw is within TOLERANCE of the goal. */
  predicate Aligned(goal: real, p: Pose)
  {
    !(AbsReal(p.theta - goal) > RotateTolerance)
  }

  /** The number of snapshots rotate waits through. */
  function WaitCount(goal: real, feed: seq<Pose>): (n: nat)
    ensures n <= |feed|
  {
    if feed == [] || Aligned(goal, feed[0]) then 0
    else 1 + WaitCount(goal, feed[1..])
  }

  /** rotate waits through every snapshot before the first aligned one, and
      stops at that one. */
  lemma {:induction false} WaitCountSpec(goal: real, feed: seq<Pose>)
    ensures var n := WaitCount(goal, feed);
            (forall k :: 0 <= k < n ==> !Aligned(goal, feed[k]))
            && (n < |feed| ==> Aligned(goal, feed[n]))
  {
    if feed != [] && !Aligned(goal, feed[0]) {
      WaitCountSpec(goal, feed[1..]);
    }
  }

  /** Everything rotate sends: the turn command, then a stop once aligned. */
  function RotateLog(angle: real, aspeed: real, feed: seq<Pose>): seq<Command>
  {
    [Command(0.0, aspeed)] + (if WaitCount(NormalAngle(angle), feed) < |feed| then [Stop] else [])
  }

  /** What go_to sends once its first rotation has converged at pose start:
      the drive, then, if the drive finishes, the final rotation. */
  function DriveTurnLog(distance: real, yaw: real, start: Pose, rest: seq<Pose>): seq<Command>
  {
    var h := HoldCount(start.x, start.y, distance, rest);
    DriveLog(DriveSpeed, distance, start, rest)
    + (if h < |rest| then RotateLog(yaw, RotationSpeed, rest[h + 1..]) else [])
  }

  /** Everything go_to sends: rotate towards the goal, drive the distance
      from where the rotation ended, rotate to the goal's yaw; each primitive
      starts only once the previous one has returned. */
  function GoToLog(heading: real, distance: real, yaw: real, feed: seq<Pose>): seq<Command>
  {
    var w := WaitCount(NormalAngle(heading), feed);
    RotateLog(heading, RotationSpeed, feed)
    + (if w < |feed| then DriveTurnLog(distance, yaw, feed[w], feed[w + 1..]) else [])
  }

  // ---------------------------------------------------------------------
  // Properties of the sequences.

  lemma MulLe(v: real, s: real, t: real)
    requires v >= 0.0 && s <= t
    ensures v * s <= v * t
  {
    assert v * t - v * s == v * (t - s);
  }

  /** Each ramp grows by one command per step. */
  lemma RampUpSnoc(v: real, n: nat)
    ensures RampUp(v, n + 1) == RampUp(v, n) + [Command(v * UpFactor(n), 0.0)]
  {
    var a, b := RampUp(v, n + 1), RampUp(v, n) + [Command(v * UpFactor(n), 0.0)];
    assert |a| == |b|;
    assert a[n] == b[n];
    assert forall k :: 0 <= k < n ==> a[k] == b[k];
  }

  lemma RampDownSnoc(v: real, n: nat)
    ensures RampDown(v, n + 1) == RampDown(v, n) + [Command(v * DownFactor(n), 0.0)]
  {
    var a, b := RampDown(v, n + 1), RampDown(v, n) + [Command(v * DownFactor(n), 0.0)];
    assert |a| == |b|;
    assert a[n] == b[n];
    assert forall k :: 0 <= k < n ==> a[k] == b[k];
  }

  /** For a non-negative speed the ramp up starts at a standstill, never
      decreases, never exceeds the speed, and never turns. */
  lemma RampUpRises(v: real)
    requires v >= 0.0
    ensures RampUp(v, RampSteps)[0] == Stop
    ensures forall i, j :: 0 <= i <= j < RampSteps ==>
              RampUp(v, RampSteps)[i].linear <= RampUp(v, RampSteps)[j].linear <= v
    ensures forall i :: 0 <= i < RampSteps ==> RampUp(v, RampSteps)[i].angular == 0.0
  {
    var r := RampUp(v, RampSteps);
    forall i, j | 0 <= i <= j < RampSteps
      ensures r[i].linear <= r[j].linear <= v
    {
      assert r[i].linear == v * UpFactor(i) && r[j].linear == v * UpFactor(j);
      MulLe(v, UpFactor(i), UpFactor(j));
      MulLe(v, UpFactor(j), 1.0);
    }
    forall i | 0 <= i < RampSteps ensures r[i].angular == 0.0 {
    }
  }

  /** For a non-negative speed the ramp down never exceeds full speed and
      never increases. */
  lemma RampDownFalls(v: real)
    requires v >= 0.0
    ensures forall i, j :: 0 <= i <= j < RampSteps ==>
              v >= RampDown(v, RampSteps)[i].linear >= RampDown(v, RampSteps)[j].linear
  {
    var r := RampDown(v, RampSteps);
    forall i, j | 0 <= i <= j < RampSteps
      ensures v >= r[i].linear >= r[j].linear
    {
      assert r[i].linear == v * DownFactor(i) && r[j].linear == v * DownFactor(j);
      RampDownScale(v, i, j);
    }
  }

  /** The ramp down starts at full speed, never turns, and for a positive
      speed never reaches zero on its own: the explicit stop after it is what
      halts the robot. */
  lemma RampDownMoving(v: real)
    ensures RampDown(v, RampSteps)[0] == Command(v, 0.0)
    ensures forall i :: 0 <= i < RampSteps ==> RampDown(v, RampSteps)[i].angular == 0.0
    ensures v > 0.0 ==> forall i :: 0 <= i < RampSteps ==> RampDown(v, RampSteps)[i].linear > 0.0
  {
    var r := RampDown(v, RampSteps);
    assert DownFactor(0) == 1.0;
    forall i | 0 <= i < RampSteps ensures r[i].angular == 0.0 && (v > 0.0 ==> r[i].linear > 0.0) {
      if v > 0.0 {
        PositiveProduct(v, DownFactor(i));
      }
    }
  }

  lemma RampDownScale(v: real, i: int, j: int)
    requires v >= 0.0 && 0 <= i <= j < RampSteps
    ensures v >= v * DownFactor(i) >= v * DownFactor(j)
  {
    MulLe(v, DownFactor(j), DownFactor(i));
    MulLe(v, DownFactor(i), 1.0);
  }

  lemma PositiveProduct(a: real, b: real)
    requires a > 0.0 && b > 0.0
    ensures a * b > 0.0
  {
  }

  lemma {:induction false} HoldCommandsAt(v: real, feed: seq<Pose>, k: nat)
    requires k < |feed|
    ensures HoldCommands(v, feed)[k] == Command(v, -(feed[k].angularZ * HeadingGain))
  {
    if k < |feed| - 1 {
      HoldCommandsAt(v, feed[..|feed| - 1], k);
    }
  }

  /** The shape of drive's log: 1001 ramp-up commands ending at full speed,
      one corrected full-speed command per snapshot still short of the
      target, and, when a snapshot shows the distance covered, the 1000 ramp
      down commands and two stops. */
  lemma DriveLogShape(v: real, distance: real, start: Pose, feed: seq<Pose>)
    ensures var n := HoldCount(start.x, start.y, distance, feed);
            var r := DriveLog(v, distance, start, feed);
            |r| == RampSteps + 1 + n + (if n < |feed| then RampSteps + 2 else 0)
            && r[..RampSteps] == RampUp(v, RampSteps) && r[RampSteps] == Command(v, 0.0)
            && (forall k :: 0 <= k < n ==> r[RampSteps + 1 + k] == Command(v, -(feed[k].angularZ * HeadingGain)))
            && (n < |feed| ==> r[RampSteps + 1 + n..|r| - 2] == RampDown(v, RampSteps)
                                && r[|r| - 2] == Stop && r[|r| - 1] == Stop)
  {
    var n := HoldCount(start.x, start.y, distance, feed);
    var r := DriveLog(v, distance, start, feed);
    var up := RampUp(v, RampSteps) + [Command(v, 0.0)];
    var hold := HoldCommands(v, feed[..n]);
    forall k | 0 <= k < n ensures r[RampSteps + 1 + k] == Command(v, -(feed[k].angularZ * HeadingGain)) {
      HoldCommandsAt(v, feed[..n], k);
      assert r[RampSteps + 1 + k] == hold[k];
    }
    if n < |feed| {
      assert r == up + hold + RampDown(v, RampSteps) + [Stop, Stop];
      assert r[RampSteps + 1 + n..|r| - 2] == RampDown(v, RampSteps);
    }
  }

  /** drive's log, flattened, when some snapshot shows the distance covered. */
  lemma DriveLogFinished(v: real, distance: real, start: Pose, feed: seq<Pose>, before: seq<Command>)
    requires HoldCount(start.x, start.y, distance, feed) < |feed|
    ensures before + DriveLog(v, distance, start, feed)
            == before + RampUp(v, RampSteps) + [Command(v, 0.0)]
               + HoldCommands(v, feed[..HoldCount(start.x, start.y, distance, feed)])
               + RampDown(v, RampSteps) + [Stop] + [Stop]
  {
  }

  /** drive's log, flattened, when no snapshot does. */
  lemma DriveLogUnfinished(v: real, distance: real, start: Pose, feed: seq<Pose>, before: seq<Command>)
    requires HoldCount(start.x, start.y, distance, feed) == |feed|
    ensures before + DriveLog(v, distance, start, feed)
            == before + RampUp(v, RampSteps) + [Command(v, 0.0)] + HoldCommands(v, feed[..|feed|])
  {
    assert DriveLog(v, distance, start, feed)
           == RampUp(v, RampSteps) + [Command(v, 0.0)] + HoldCommands(v, feed[..|feed|]) + [];
  }

  /** rotate's log is the turn command, then a stop exactly when some
      snapshot comes within TOLERANCE of the normalised goal. */
  lemma RotateLogShape(angle: real, aspeed: real, feed: seq<Pose>)
    ensures RotateLog(angle, aspeed, feed)[0] == Command(0.0, aspeed)
    ensures |RotateLog(angle, aspeed, feed)| == 2 <==>
              exists k :: 0 <= k < |feed| && Aligned(NormalAngle(angle), feed[k])
    ensures |RotateLog(angle, aspeed, feed)| == 2 ==> RotateLog(angle, aspeed, feed)[1] == Stop
  {
    var n := WaitCount(NormalAngle(angle), feed);
    WaitCountSpec(NormalAngle(angle), feed);
    if exists k :: 0 <= k < |feed| && Aligned(NormalAngle(angle), feed[k]) {
      var k :| 0 <= k < |feed| && Aligned(NormalAngle(angle), feed[k]);
      assert n <= k;
    }
  }

  /** The drive and the final rotation both converge on rest. */
  predicate DriveTurnArrives(distance: real, yaw: real, start: Pose, rest: seq<Pose>)
  {
    var h := HoldCount(start.x, start.y, distance, rest);
    h < |rest| && WaitCount(NormalAngle(yaw), rest[h + 1..]) < |rest| - (h + 1)
  }

  /** go_to runs to completion on feed: each primitive converges on the
      snapshots left over by the one before it. */
  predicate GoToArrives(heading: real, distance: real, yaw: real, feed: seq<Pose>)
  {
    var w := WaitCount(NormalAngle(heading), feed);
    w < |feed| && DriveTurnArrives(distance, yaw, feed[w], feed[w + 1..])
  }

  /** The last command drive sends is a stop exactly when it finishes, for
      any non-zero speed. */
  lemma DriveEndsStopped(v: real, distance: real, start: Pose, feed: seq<Pose>)
    requires v != 0.0
    ensures var r := DriveLog(v, distance, start, feed);
            r[|r| - 1] == Stop <==> HoldCount(start.x, start.y, distance, feed) < |feed|
  {
    var n := HoldCount(start.x, start.y, distance, feed);
    var r := DriveLog(v, distance, start, feed);
    if n == |feed| && n > 0 {
      HoldCommandsAt(v, feed[..n], n - 1);
      assert r[|r| - 1] == HoldCommands(v, feed[..n])[n - 1];
    }
  }

  /** After the first rotation, go_to ends on a stop exactly when the drive
      and the final rotation both converge. */
  lemma DriveTurnEndsStopped(distance: real, yaw: real, start: Pose, rest: seq<Pose>)
    ensures var r := DriveTurnLog(distance, yaw, start, rest);
            r[|r| - 1] == Stop <==> DriveTurnArrives(distance, yaw, start, rest)
  {
    var h := HoldCount(start.x, start.y, distance, rest);
    var r := DriveTurnLog(distance, yaw, start, rest);
    var second := DriveLog(DriveSpeed, distance, start, rest);
    DriveEndsStopped(DriveSpeed, distance, start, rest);
    if h < |rest| {
      var third := RotateLog(yaw, RotationSpeed, rest[h + 1..]);
      assert r == second + third;
      assert r[|r| - 1] == third[|third| - 1];
    } else {
      assert r == second;
    }
  }

  /** go_to leaves the robot stopped exactly when it runs to completion: a
      primitive that never converges leaves a moving command last. When it
      does complete, its log is the two rotations around the drive. */
  lemma GoToEndsStopped(heading: real, distance: real, yaw: real, feed: seq<Pose>)
    ensures var r := GoToLog(heading, distance, yaw, feed);
            r[|r| - 1] == Stop <==> GoToArrives(heading, distance, yaw, feed)
    ensures GoToArrives(heading, distance, yaw, feed) ==>
            var w := WaitCount(NormalAngle(heading), feed);
            GoToLog(heading, distance, yaw, feed)
            == [Command(0.0, RotationSpeed), Stop]
               + DriveLog(DriveSpeed, distance, feed[w], feed[w + 1..])
               + [Command(0.0, RotationSpeed), Stop]
  {
    GoToLastStop(heading, distance, yaw, feed);
    GoToArrivedLog(heading, distance, yaw, feed);
  }

  /** go_to's last command is a stop exactly when it runs to completion. */
  lemma GoToLastStop(heading: real, distance: real, yaw: real, feed: seq<Pose>)
    ensures var r := GoToLog(heading, distance, yaw, feed);
            r[|r| - 1] == Stop <==> GoToArrives(heading, distance, yaw, feed)
  {
    var r := GoToLog(heading, distance, yaw, feed);
    var first := RotateLog(heading, RotationSpeed, feed);
    var w := WaitCount(NormalAngle(heading), feed);
    if w == |feed| {
      assert r == [Command(0.0, RotationSpeed)];
    } else {
      var rest := feed[w + 1..];
      var later := DriveTurnLog(distance, yaw, feed[w], rest);
      assert first == [Command(0.0, RotationSpeed), Stop];
      assert r == first + later;
      DriveTurnEndsStopped(distance, yaw, feed[w], rest);
      assert r[|r| - 1] == later[|later| - 1];
    }
  }

  /** When go_to runs to completion, its log is turn, stop, the drive's log,
      turn, stop. */
  lemma GoToArrivedLog(heading: real, distance: real, yaw: real, feed: seq<Pose>)
    ensures GoToArrives(heading, distance, yaw, feed) ==>
            var w := WaitCount(NormalAngle(heading), feed);
            GoToLog(heading, distance, yaw, feed)
            == [Command(0.0, RotationSpeed), Stop]
               + DriveLog(DriveSpeed, distance, feed[w], feed[w + 1..])
               + [Command(0.0, RotationSpeed), Stop]
  {
    if GoToArrives(heading, distance, yaw, feed) {
      var w := WaitCount(NormalAngle(heading), feed);
      var rest := feed[w + 1..];
      var h := HoldCount(feed[w].x, feed[w].y, distance, rest);
      GoToTurnedLog(heading, distance, yaw, feed, w);
      DriveTurnDriven(distance, yaw, feed[w], rest, h);
      var first := RotateLog(heading, RotationSpeed, feed);
      var drive := DriveLog(DriveSpeed, distance, feed[w], rest);
      var third := RotateLog(yaw, RotationSpeed, rest[h + 1..]);
      assert first == [Command(0.0, RotationSpeed), Stop];
      assert third == [Command(0.0, RotationSpeed), Stop];
      assert GoToLog(heading, distance, yaw, feed) == first + (drive + third);
    }
  }

  /** The number of snapshots the drive and the final rotation read from
      rest: each reads up to and including the snapshot it converges on, and
      one that never converges reads all that are left. */
  function DriveTurnUsed(distance: real, yaw: real, start: Pose, rest: seq<Pose>): (used: nat)
    ensures used <= |rest|
  {
    var h := HoldCount(start.x, start.y, distance, rest);
    if h == |rest| then |rest|
    else
      var t := WaitCount(NormalAngle(yaw), rest[h + 1..]);
      h + 1 + (if t < |rest| - (h + 1) then t + 1 else |rest| - (h + 1))
  }

  /** The number of snapshots go_to reads: the first rotation's, then those
      the drive and the final rotation read from the snapshots after it. */
  function GoToUsed(heading: real, distance: real, yaw: real, feed: seq<Pose>): (used: nat)
    ensures used <= |feed|
  {
    var w := WaitCount(NormalAngle(heading), feed);
    if w == |feed| then |feed|
    else w + 1 + DriveTurnUsed(distance, yaw, feed[w], feed[w + 1..])
  }

  /** go_to reads every snapshot unless it arrives; when it arrives, the last
      snapshot it read has the yaw within TOLERANCE of the normalised goal
      yaw, and at least one snapshot was read for each primitive. */
  lemma GoToUsedSpec(heading: real, distance: real, yaw: real, feed: seq<Pose>)
    ensures var used := GoToUsed(heading, distance, yaw, feed);
            (!GoToArrives(heading, distance, yaw, feed) ==> used == |feed|)
            && (GoToArrives(heading, distance, yaw, feed) ==> 3 <= used && Aligned(NormalAngle(yaw), feed[used - 1]))
  {
    var w := WaitCount(NormalAngle(heading), feed);
    if w < |feed| {
      var rest := feed[w + 1..];
      var h := HoldCount(feed[w].x, feed[w].y, distance, rest);
      if h < |rest| {
        var last := rest[h + 1..];
        var t := WaitCount(NormalAngle(yaw), last);
        WaitCountSpec(NormalAngle(yaw), last);
        if t < |last| {
          assert feed[w + 1 + h + 1 + t] == last[t];
        }
      }
    }
  }

  /** When the first rotation never converges, go_to sends only that
      rotation's command and does not arrive. */
  lemma GoToUnturned(heading: real, distance: real, yaw: real, feed: seq<Pose>)
    requires WaitCount(NormalAngle(heading), feed) == |feed|
    ensures GoToLog(heading, distance, yaw, feed) == RotateLog(heading, RotationSpeed, feed)
    ensures !GoToArrives(heading, distance, yaw, feed)
    ensures GoToUsed(heading, distance, yaw, feed) == |feed|
  {
    assert GoToLog(heading, distance, yaw, feed) == RotateLog(heading, RotationSpeed, feed) + [];
  }

  /** When the first rotation converges at snapshot w, go_to arrives
      exactly when the drive and the final rotation do, on the snapshots
      after w. */
  lemma GoToTurned(heading: real, distance: real, yaw: real, feed: seq<Pose>, w: nat)
    requires w == WaitCount(NormalAngle(heading), feed) && w < |feed|
    ensures GoToArrives(heading, distance, yaw, feed) == DriveTurnArrives(distance, yaw, feed[w], feed[w + 1..])
  {
  }

  /** When the first rotation converges at snapshot w, the rest of go_to's
      log is the drive and the final rotation on the snapshots after w. */
  lemma GoToTurnedLog(heading: real, distance: real, yaw: real, feed: seq<Pose>, w: nat)
    requires w == WaitCount(NormalAngle(heading), feed) && w < |feed|
    ensures GoToLog(heading, distance, yaw, feed)
            == RotateLog(heading, RotationSpeed, feed) + DriveTurnLog(distance, yaw, feed[w], feed[w + 1..])
  {
    var later := DriveTurnLog(distance, yaw, feed[w], feed[w + 1..]);
    assert GoToLog(heading, distance, yaw, feed)
           == RotateLog(heading, RotationSpeed, feed) + (if w < |feed| then later else []);
  }

  /** When the drive never converges, go_to's tail is the drive alone. */
  lemma DriveTurnUndriven(distance: real, yaw: real, start: Pose, rest: seq<Pose>)
    requires HoldCount(start.x, start.y, distance, rest) == |rest|
    ensures DriveTurnLog(distance, yaw, start, rest) == DriveLog(DriveSpeed, distance, start, rest)
    ensures !DriveTurnArrives(distance, yaw, start, rest)
  {
    assert DriveTurnLog(distance, yaw, start, rest) == DriveLog(DriveSpeed, distance, start, rest) + [];
  }

  /** When the drive converges at snapshot h, the final rotation runs on the
      snapshots after h. */
  lemma DriveTurnDriven(distance: real, yaw: real, start: Pose, rest: seq<Pose>, h: nat)
    requires h == HoldCount(start.x, start.y, distance, rest) && h < |rest|
    ensures DriveTurnLog(distance, yaw, start, rest)
            == DriveLog(DriveSpeed, distance, start, rest) + RotateLog(yaw, RotationSpeed, rest[h + 1..])
    ensures DriveTurnArrives(distance, yaw, start, rest)
            == (WaitCount(NormalAngle(yaw), rest[h + 1..]) < |rest[h + 1..]|)
  {
    var third := RotateLog(yaw, RotationSpeed, rest[h + 1..]);
    assert DriveTurnLog(distance, yaw, start, rest)
           == DriveLog(DriveSpeed, distance, start, rest) + (if h < |rest| then third else []);
  }

  lemma Regroup(a: seq<Command>, b: seq<Command>, c: seq<Command>, d: seq<Command>)
    ensures a + (b + c) == a + b + c
    ensures a + (b + (c + d)) == a + b + c + d
  {
  }

  // ---------------------------------------------------------------------
  // The robot.

  class Robot {
    /** px, py, pth and angular_z, as the odometry callback last wrote them. */
    var pose: Pose
    /** Where the current drive started. */
    var ix: real
    var iy: real
    /** Every command sent so far, oldest first. */
    var log: seq<Command>

    /** The constructor's pose fields start at zero; nothing has been sent. */
    constructor ()
      ensures pose == Pose(0.0, 0.0, 0.0, 0.0) && log == []
    {
      pose := Pose(0.0, 0.0, 0.0, 0.0);
      log := [];
    }

    /** send_speed: publishes one command. */
    method SendSpeed(linear: real, angular: real)
      modifies this`log
      ensures log == old(log) + [Command(linear, angular)]
    {
      log := log + [Command(linear, angular)];
    }

    /** drive's first phase: the 1000-step ramp up, then full speed. */
    method RampUpPhase(linearSpeed: real)
      modifies this`log
      ensures log == old(log) + RampUp(linearSpeed, RampSteps) + [Command(linearSpeed, 0.0)]
    {
      var x := 0;
      while x < RampSteps
        invariant 0 <= x <= RampSteps
        invariant log == old(log) + RampUp(linearSpeed, x)
      {
        RampUpSnoc(linearSpeed, x);
        SendSpeed(linearSpeed * UpFactor(x), 0.0);
        x := x + 1;
      }
      SendSpeed(linearSpeed, 0.0);
    }

    /** drive's second phase: poll the next snapshot and, while the robot is
        still short of distance - TOLERANCE from (ix, iy), send full speed
        with the heading correction. arrived is false when feed runs out
        first; used counts the snapshots read. */
    method HoldPhase(distance: real, linearSpeed: real, feed: seq<Pose>) returns (arrived: bool, used: nat)
      modifies this`log, this`pose
      ensures var n := HoldCount(ix, iy, distance, feed);
              arrived == (n < |feed|) && used == (if arrived then n + 1 else |feed|)
              && log == old(log) + HoldCommands(linearSpeed, feed[..n])
      ensures pose == if used == 0 then old(pose) else feed[used - 1]
    {
      ghost var n := HoldCount(ix, iy, distance, feed);
      HoldCountSpec(ix, iy, distance, feed);
      var k := 0;
      arrived := false;
      while !arrived && k < |feed|
        invariant 0 <= k <= |feed|
        invariant !arrived ==> k <= n
        invariant arrived ==> k == n + 1
        invariant log == old(log) + HoldCommands(linearSpeed, feed[..if arrived then k - 1 else k])
        invariant pose == if k == 0 then old(pose) else feed[k - 1]
        decreases |feed| - k
      {
        pose := feed[k];
        if Short(ix, iy, distance, pose) {
          assert feed[..k + 1][..k] == feed[..k];
          SendSpeed(linearSpeed, -(pose.angularZ * HeadingGain));
        } else {
          arrived := true;
        }
        k := k + 1;
      }
      used := k;
    }

    /** drive's last phase: the 1000-step ramp down, then a stop sent twice. */
    method RampDownPhase(linearSpeed: real)
      modifies this`log
      ensures log == old(log) + RampDown(linearSpeed, RampSteps) + [Stop] + [Stop]
    {
      var x := 0;
      while x < RampSteps
        invariant 0 <= x <= RampSteps
        invariant log == old(log) + RampDown(linearSpeed, x)
      {
        RampDownSnoc(linearSpeed, x);
        SendSpeed(linearSpeed * DownFactor(x), 0.0);
        x := x + 1;
      }
      SendSpeed(0.0, 0.0);
      SendSpeed(0.0, 0.0);
    }

    /** drive: ramp up, hold with heading correction until a snapshot shows
        distance - TOLERANCE covered, ramp down, stop. Each poll takes the
        next snapshot of feed; done is false when feed runs out first (the
        source would poll forever), and used counts the snapshots read. */
    method Drive(distance: real, linearSpeed: real, feed: seq<Pose>) returns (done: bool, used: nat)
      modifies this`log, this`pose, this`ix, this`iy
      ensures ix == old(pose).x && iy == old(pose).y
      ensures var n := HoldCount(ix, iy, distance, feed);
              done == (n < |feed|) && used == (if done then n + 1 else |feed|)
      ensures log == old(log) + DriveLog(linearSpeed, distance, old(pose), feed)
      ensures pose == if used == 0 then old(pose) else feed[used - 1]
    {
      ix, iy := pose.x, pose.y;
      RampUpPhase(linearSpeed);
      done, used := HoldPhase(distance, linearSpeed, feed);
      if done {
        RampDownPhase(linearSpeed);
        DriveLogFinished(linearSpeed, distance, old(pose), feed, old(log));
      } else {
        DriveLogUnfinished(linearSpeed, distance, old(pose), feed, old(log));
      }
    }

    /** rotate: one turn command at aspeed, then a stop at the first snapshot
        whose yaw is within TOLERANCE of the normalised angle. done is false
        when feed runs out first; used counts the snapshots read. */
    method Rotate(angle: real, aspeed: real, feed: seq<Pose>) returns (done: bool, used: nat)
      modifies this`log, this`pose
      ensures var n := WaitCount(NormalAngle(angle), feed);
              done == (n < |feed|) && used == (if done then n + 1 else |feed|)
      ensures log == old(log) + RotateLog(angle, aspeed, feed)
      ensures pose == if used == 0 then old(pose) else feed[used - 1]
    {
      var goal := NormalizeAngle(angle);
      ghost var n := WaitCount(goal, feed);
      WaitCountSpec(goal, feed);
      SendSpeed(0.0, aspeed);
      var k := 0;
      var arrived := false;
      while !arrived && k < |feed|
        invariant 0 <= k <= |feed|
        invariant !arrived ==> k <= n
        invariant arrived ==> k == n + 1
        invariant pose == if k == 0 then old(pose) else feed[k - 1]
        invariant log == old(log) + [Command(0.0, aspeed)]
        decreases |feed| - k
      {
        pose := feed[k];
        if !(AbsReal(pose.theta - goal) > RotateTolerance) {
          arrived := true;
        }
        k := k + 1;
      }
      done, used := arrived, k;
      if arrived {
        SendSpeed(0.0, 0.0);
      }
    }

    /** The tail of go_to: drive the distance from the current pose, then,
        if the drive converged, rotate to the goal's yaw on the snapshots the
        drive left unread. */
    method DriveThenTurn(distance: real, yaw: real, rest: seq<Pose>) returns (done: bool, used: nat)
      modifies this`log, this`pose, this`ix, this`iy
      ensures done == DriveTurnArrives(distance, yaw, old(pose), rest)
      ensures log == old(log) + DriveTurnLog(distance, yaw, old(pose), rest)
      ensures used == DriveTurnUsed(distance, yaw, old(pose), rest)
      ensures pose == if used == 0 then old(pose) else rest[used - 1]
      ensures ix == old(pose).x && iy == old(pose).y
    {
      ghost var h := HoldCount(pose.x, pose.y, distance, rest);
      ghost var second := DriveLog(DriveSpeed, distance, pose, rest);
      var drove, u1 := Drive(distance, DriveSpeed, rest);
      if !drove {
        DriveTurnUndriven(distance, yaw, old(pose), rest);
        return false, u1;
      }
      DriveTurnDriven(distance, yaw, old(pose), rest, h);
      var last := rest[u1..];
      var aligned, u2 := Rotate(yaw, RotationSpeed, last);
      Regroup(old(log), second, RotateLog(yaw, RotationSpeed, last), []);
      assert u2 > 0 ==> pose == rest[u1 + u2 - 1];
      done, used := aligned, u1 + u2;
    }

    /** go_to: rotate towards the goal, drive to it, rotate to its yaw. The
        heading, the distance and the yaw are the values the source derives
        with atan2, sqrt and the quaternion conversion. done is false when a
        primitive never converges on the snapshots left to it, and used
        counts the snapshots read. The drive starts from the pose at which
        the first rotation converged: distance stands for the source's
        distance from that pose to the goal. */
    method GoTo(heading: real, distance: real, yaw: real, feed: seq<Pose>) returns (done: bool, used: nat)
      modifies this`log, this`pose, this`ix, this`iy
      ensures done == GoToArrives(heading, distance, yaw, feed)
      ensures log == old(log) + GoToLog(heading, distance, yaw, feed)
      ensures used == GoToUsed(heading, distance, yaw, feed)
      ensures pose == if used == 0 then old(pose) else feed[used - 1]
      ensures var w := WaitCount(NormalAngle(heading), feed);
              if w < |feed| then ix == feed[w].x && iy == feed[w].y
              else ix == old(ix) && iy == old(iy)
    {
      ghost var w := WaitCount(NormalAngle(heading), feed);
      var turned, u1 := Rotate(heading, RotationSpeed, feed);
      if !turned {
        GoToUnturned(heading, distance, yaw, feed);
        return false, u1;
      }
      assert u1 == w + 1 && pose == feed[w];
      GoToTurned(heading, distance, yaw, feed, w);
      GoToTurnedLog(heading, distance, yaw, feed, w);
      assert GoToUsed(heading, distance, yaw, feed) == u1 + DriveTurnUsed(distance, yaw, feed[w], feed[u1..]);
      ghost var later := DriveTurnLog(distance, yaw, pose, feed[u1..]);
      var u2;
      done, u2 := DriveThenTurn(distance, yaw, feed[u1..]);
      Regroup(old(log), RotateLog(heading, RotationSpeed, feed), later, []);
      assert u2 > 0 ==> pose == feed[u1 + u2 - 1];
      used := u1 + u2;
    }
  }
}
