/**
  The foraging robot's controller: a six-state machine stepped once per
  simulation tick, reading the shared `customData` flag and emitting a
  left/right wheel-speed intent.
 */
module Rosbot {
  import opened Wrappers
  import opened Text
  import opened Angles

  const MaxSpeed: real := 6.0
  const TurnSpeed: real := MaxSpeed * 0.5
  const ArenaRadius: real := 2.5
  const WallTolerance: real := 0.1
  const CenterTolerance: real := 0.1
  /** Seconds spent backing up before turning. */
  const BackDuration: real := 1.0
  /** Seconds of both blocking waits. */
  const WaitSeconds: real := 2.0
  /** `math.radians(2)`. */
  const AlignTolerance: real := 2.0 * Pi / 180.0
  /** The robot is home within this distance of the centre (`CENTER_TOLERANCE + 0.2`). */
  const HomeRadius: real := CenterTolerance + 0.2
  /** The robot is at the wall from this distance on (`ARENA_RADIUS - WALL_TOLERANCE`). */
  const WallDistance: real := ArenaRadius - WallTolerance

  /** The six values the controller's `state` variable takes. */
  datatype State = ChooseDirection | Orienting | MovingOut | BackingUp | TurningToCenter | Returning

  /**
    Where the controller is inside a tick: stepping the main loop normally, or
    inside one of the two blocking waits, each started at time `start`: the
    simulated collection in `moving_out` and the wait at home in `returning`.
   */
  datatype Wait = Stepping | Collecting(start: real) | AwaitingClear(start: real)

  /** A `set_velocity(left, right)` call: left wheels, right wheels. */
  datatype Drive = Drive(left: real, right: real)

  /**
    The controller's module-level variables; `drive` is the last speed pair set,
    `None` before the first `set_velocity`.
   */
  datatype Controller = Controller(
    state: State, wait: Wait, backStartTime: Option<real>, targetHeading: Option<real>,
    hasCollected: bool, drive: Option<Drive>)

  /**
    What one tick observes: the simulation time, the distance from the centre,
    the compass heading, whether the heading points at the centre
    (`will_hit_center`), and the heading `random.uniform` would draw.
   */
  datatype Observation = Observation(time: real, dist: real, heading: real, aligned: bool, draw: real)

  /** The start of the controller script: choosing a direction, no heading drawn, the wheels untouched. */
  const Initial: Controller := Controller(ChooseDirection, Stepping, None, None, false, None)

  /** The robot's reading of the flag: `customData.strip().lower() == "collected"`. */
  predicate FlagRaised(customData: string) {
    Normalize(customData) == "collected"
  }

  function Abs(x: real): real {
    if x < 0.0 then -x else x
  }

  /**
    What every reachable controller satisfies: `orienting` has a target heading,
    `backing_up` has a start time, and each wait belongs to the state that starts it.
   */
  predicate Inv(c: Controller) {
    && (c.state == Orienting ==> c.targetHeading.Some?)
    && (c.state == BackingUp ==> c.backStartTime.Some?)
    && (c.wait.Collecting? ==> c.state == MovingOut || c.state == BackingUp)
    && (c.wait.AwaitingClear? ==> c.state == Returning)
  }

  /** The heading error `orienting` turns against, normalised. */
  function HeadingError(c: Controller, o: Observation): real
    requires c.targetHeading.Some?
  {
    Wrap(c.targetHeading.value - o.heading)
  }

  /** One tick of the main loop, or of the wait loop the controller is in. */
  function Next(c: Controller, o: Observation, customData: string): (c': Controller)
    requires Inv(c)
    ensures Inv(c')
  {
    match c.wait
    case Collecting(start) =>
      if o.time - start > WaitSeconds then c.(state := TurningToCenter, wait := Stepping) else c
    case AwaitingClear(start) =>
      var raised := FlagRaised(customData);
      if o.time - start > WaitSeconds && !raised then c.(hasCollected := raised, state := ChooseDirection, wait := Stepping)
      else c.(hasCollected := raised)
    case Stepping =>
      match c.state
      case ChooseDirection =>
        c.(targetHeading := Some(o.draw), state := Orienting)
      case Orienting =>
        var error := HeadingError(c, o);
        if Abs(error) < AlignTolerance then c.(drive := Some(Drive(MaxSpeed, MaxSpeed)), state := MovingOut)
        else if error > 0.0 then c.(drive := Some(Drive(-TurnSpeed, TurnSpeed)))
        else c.(drive := Some(Drive(TurnSpeed, -TurnSpeed)))
      case MovingOut =>
        var afterWall :=
          if o.dist >= WallDistance then
            c.(backStartTime := Some(o.time), drive := Some(Drive(-MaxSpeed, -MaxSpeed)), state := BackingUp)
          else c.(drive := Some(Drive(MaxSpeed, MaxSpeed)));
        var raised := FlagRaised(customData);
        if raised then afterWall.(hasCollected := true, drive := Some(Drive(0.0, 0.0)), wait := Collecting(o.time))
        else afterWall.(hasCollected := false)
      case BackingUp =>
        var reversing := c.(drive := Some(Drive(-TurnSpeed, -TurnSpeed)));
        if o.time - c.backStartTime.value >= BackDuration then reversing.(state := TurningToCenter) else reversing
      case TurningToCenter =>
        if o.aligned then c.(drive := Some(Drive(MaxSpeed, MaxSpeed)), state := Returning)
        else c.(drive := Some(Drive(-TurnSpeed, TurnSpeed)))
      case Returning =>
        if o.dist <= HomeRadius then c.(drive := Some(Drive(0.0, 0.0)), wait := AwaitingClear(o.time)) else c
  }

  lemma InitialInv()
    ensures Inv(Initial)
  {
  }

  /** `choose_direction` draws a target heading and always moves on to `orienting`. */
  lemma ChooseDirectionStep(c: Controller, o: Observation, customData: string)
    requires Inv(c) && c.wait == Stepping && c.state == ChooseDirection
    ensures Next(c, o, customData) == c.(targetHeading := Some(o.draw), state := Orienting)
  {
  }

  /**
    `orienting` moves out at full speed exactly when the heading error is under
    two degrees; otherwise it stays and spins towards the target.
   */
  lemma OrientingStep(c: Controller, o: Observation, customData: string)
    requires Inv(c) && c.wait == Stepping && c.state == Orienting
    ensures var c' := Next(c, o, customData);
      && (c'.state == MovingOut <==> Abs(HeadingError(c, o)) < AlignTolerance)
      && (c'.state == MovingOut ==> c'.drive == Some(Drive(6.0, 6.0)))
      && (c'.state != MovingOut ==>
            c'.state == Orienting &&
            c'.drive == if HeadingError(c, o) > 0.0 then Some(Drive(-3.0, 3.0)) else Some(Drive(3.0, -3.0)))
      && c'.wait == Stepping && c'.targetHeading == c.targetHeading
  {
  }

  /**
    `moving_out` tests the wall first and the flag second. At the wall the robot
    records the time and starts backing up; a raised flag then overrides that:
    the robot stops and waits to collect, whatever the wall test did. With
    neither, it keeps driving out.
   */
  lemma MovingOutGuardOrder(c: Controller, o: Observation, customData: string)
    requires Inv(c) && c.wait == Stepping && c.state == MovingOut
    ensures var c' := Next(c, o, customData);
      && (o.dist >= WallDistance ==> c'.backStartTime == Some(o.time) && c'.state == BackingUp)
      && (o.dist < WallDistance ==> c'.backStartTime == c.backStartTime && c'.state == MovingOut)
      && (FlagRaised(customData) <==> c'.wait == Collecting(o.time))
      && (FlagRaised(customData) ==> c'.drive == Some(Drive(0.0, 0.0)))
      && (!FlagRaised(customData) ==>
            c'.wait == Stepping &&
            c'.drive == if o.dist >= WallDistance then Some(Drive(-6.0, -6.0)) else Some(Drive(6.0, 6.0)))
      && c'.hasCollected == FlagRaised(customData)
  {
  }

  /**
    The collection wait ignores the flag and the wall, and ends in
    `turning_to_center` once more than two seconds have passed.
   */
  lemma CollectingStep(c: Controller, o: Observation, customData: string)
    requires Inv(c) && c.wait.Collecting?
    ensures var c' := Next(c, o, customData);
      if o.time - c.wait.start > WaitSeconds then c' == c.(state := TurningToCenter, wait := Stepping) else c' == c
  {
  }

  /** So with the wall reached and the flag raised in one tick, the robot turns home after the wait and never backs up. */
  lemma FlagBeatsWall(c: Controller, o: Observation, customData: string, later: Observation, laterData: string)
    requires Inv(c) && c.wait == Stepping && c.state == MovingOut
    requires o.dist >= WallDistance && FlagRaised(customData)
    requires later.time - o.time > WaitSeconds
    ensures Next(Next(c, o, customData), later, laterData).state == TurningToCenter
    ensures Next(Next(c, o, customData), later, laterData).wait == Stepping
  {
  }

  /** `backing_up` reverses at half speed and turns once one second has passed since the wall. */
  lemma BackingUpStep(c: Controller, o: Observation, customData: string)
    requires Inv(c) && c.wait == Stepping && c.state == BackingUp
    ensures var c' := Next(c, o, customData);
      && (c'.state == TurningToCenter <==> o.time - c.backStartTime.value >= BackDuration)
      && (c'.state != TurningToCenter ==> c'.state == BackingUp)
      && c'.drive == Some(Drive(-3.0, -3.0)) && c'.wait == Stepping
  {
  }

  /** `turning_to_center` heads home at full speed exactly when aligned, and otherwise keeps spinning left. */
  lemma TurningStep(c: Controller, o: Observation, customData: string)
    requires Inv(c) && c.wait == Stepping && c.state == TurningToCenter
    ensures var c' := Next(c, o, customData);
      && (c'.state == Returning <==> o.aligned)
      && (c'.state != Returning ==> c'.state == TurningToCenter)
      && c'.drive == if o.aligned then Some(Drive(6.0, 6.0)) else Some(Drive(-3.0, 3.0))
  {
  }

  /** `returning` keeps going while farther than 0.3 from the centre; at home it stops and starts waiting. */
  lemma ReturningStep(c: Controller, o: Observation, customData: string)
    requires Inv(c) && c.wait == Stepping && c.state == Returning
    ensures var c' := Next(c, o, customData);
      && (o.dist > HomeRadius ==> c' == c)
      && (o.dist <= HomeRadius ==> c' == c.(drive := Some(Drive(0.0, 0.0)), wait := AwaitingClear(o.time)))
  {
  }

  /**
    The wait at home ends, back in `choose_direction`, exactly when more than
    two seconds have passed and the flag is no longer raised.
   */
  lemma AwaitingClearStep(c: Controller, o: Observation, customData: string)
    requires Inv(c) && c.wait.AwaitingClear?
    ensures var c' := Next(c, o, customData);
      && (c'.state == ChooseDirection <==> o.time - c.wait.start > WaitSeconds && !FlagRaised(customData))
      && (c'.state == ChooseDirection ==> c'.wait == Stepping)
      && (c'.state != ChooseDirection ==> c'.wait == c.wait && c'.state == Returning)
      && c'.hasCollected == FlagRaised(customData)
      && c'.drive == c.drive
  {
  }

  /** The two values the supervisor writes read as raised and not raised. */
  lemma SupervisorValues()
    ensures FlagRaised("collected")
    ensures !FlagRaised("not_collected")
  {
    CollectedRaised();
    NotCollectedLowered();
  }

  lemma CollectedRaised()
    ensures FlagRaised("collected")
  {
    var on := "collected";
    assert Lower(on) == on by { LowerOfLowerCase(on); }
    assert Strip(on) == on by { StripOfTrimmed(on); }
  }

  lemma NotCollectedLowered()
    ensures !FlagRaised("not_collected")
  {
    var off := "not_collected";
    assert Strip(off) == off by { StripOfTrimmed(off); }
    assert Lower(off)[0] == 'n';
  }

  /** A padded, capitalised flag also reads as raised. */
  lemma PaddedRaised()
    ensures FlagRaised(" Collected\n")
  {
    var padded := " Collected\n";
    var word := "Collected";
    PaddedStrip(padded, word);
    LowerWord(word);
  }

  lemma PaddedStrip(padded: string, word: string)
    requires padded == " Collected\n" && word == "Collected"
    ensures Strip(padded) == word
  {
    var inner := padded[1..];
    assert !IsSpace(inner[0]) && IsSpace(padded[0]);
    assert TrimLeft(padded) == inner;
    assert inner[..|inner| - 1] == word;
    assert IsSpace(inner[|inner| - 1]) && !IsSpace(word[|word| - 1]);
    assert TrimRight(inner) == TrimRight(word);
  }

  lemma LowerWord(word: string)
    requires word == "Collected"
    ensures Lower(word) == "collected"
  {
    var lowered := Lower(word);
    assert lowered[0] == 'c';
    assert lowered[1..] == word[1..];
  }

  /** The wait at home is not a timeout: however long it lasts, a raised flag keeps the robot there. */
  lemma HomeWaitIsNotATimeout(c: Controller, o: Observation)
    requires Inv(c) && c.wait.AwaitingClear?
    ensures Next(c, o, "collected").state == Returning && Next(c, o, "collected").wait == c.wait
  {
    SupervisorValues();
  }

  /** An observation that moves `c` on: the wait over, the heading on target, the wall reached, time up, aligned, at home. */
  function Mover(c: Controller): Observation
    requires Inv(c)
  {
    match c.wait
    case Collecting(start) => Observation(start + 3.0, 0.0, 0.0, false, 0.0)
    case AwaitingClear(start) => Observation(start + 3.0, 0.0, 0.0, false, 0.0)
    case Stepping =>
      match c.state
      case Orienting => Observation(0.0, 0.0, c.targetHeading.value, false, 0.0)
      case MovingOut => Observation(0.0, WallDistance, 0.0, false, 0.0)
      case BackingUp => Observation(c.backStartTime.value + BackDuration, 0.0, 0.0, false, 0.0)
      case _ => Observation(0.0, 0.0, 0.0, true, 0.0)
  }

  /** No state is terminal: from every reachable controller some observation moves it on. */
  lemma NoTerminalState(c: Controller)
    requires Inv(c)
    ensures exists o: Observation, d: string :: Next(c, o, d).state != c.state || Next(c, o, d).wait != c.wait
  {
    var d := "not_collected";
    SupervisorValues();
    var o := Mover(c);
    MoverMoves(c, d);
    assert Next(c, o, d).state != c.state || Next(c, o, d).wait != c.wait;
  }

  lemma MoverMoves(c: Controller, d: string)
    requires Inv(c) && !FlagRaised(d)
    ensures Next(c, Mover(c), d).state != c.state || Next(c, Mover(c), d).wait != c.wait
  {
    var o := Mover(c);
    match c.wait
    case Collecting(_) =>
      assert Next(c, o, d).wait == Stepping;
    case AwaitingClear(_) =>
      assert Next(c, o, d).state == ChooseDirection;
    case Stepping =>
      match c.state
      case ChooseDirection =>
      case Orienting =>
        assert HeadingError(c, o) == 0.0;
      case MovingOut =>
      case BackingUp =>
      case TurningToCenter =>
      case Returning =>
  }

  /** The edges of the controller's cycle; staying put is always allowed. */
  predicate Edge(s: State, t: State) {
    || s == t
    || (s == ChooseDirection && t == Orienting)
    || (s == Orienting && t == MovingOut)
    || (s == MovingOut && (t == BackingUp || t == TurningToCenter))
    || (s == BackingUp && t == TurningToCenter)
    || (s == TurningToCenter && t == Returning)
    || (s == Returning && t == ChooseDirection)
  }

  /** Every tick follows an edge of the cycle; in particular `choose_direction` is entered only from `returning`. */
  lemma NextFollowsCycle(c: Controller, o: Observation, customData: string)
    requires Inv(c)
    ensures Edge(c.state, Next(c, o, customData).state)
    ensures Next(c, o, customData).state == ChooseDirection && c.state != ChooseDirection ==>
      c.wait.AwaitingClear? && !FlagRaised(customData)
  {
  }

  /** The controller after a run of ticks, the i-th observing `obs[i]` and reading `data[i]`. */
  function Run(c: Controller, obs: seq<Observation>, data: seq<string>): (r: Controller)
    requires Inv(c) && |obs| == |data|
    ensures Inv(r)
    decreases |obs|
  {
    if obs == [] then c
    else
      var n := |obs| - 1;
      Next(Run(c, obs[..n], data[..n]), obs[n], data[n])
  }

  /**
    However many ticks pass, the wait at home does not end while every reading
    of the flag is raised, and the robot records that it still holds a resource.
   */
  lemma {:induction false} RaisedFlagHoldsHome(c: Controller, obs: seq<Observation>, data: seq<string>)
    requires Inv(c) && c.wait.AwaitingClear? && |obs| == |data|
    requires forall i :: 0 <= i < |data| ==> FlagRaised(data[i])
    ensures Run(c, obs, data).state == Returning && Run(c, obs, data).wait == c.wait
    ensures obs != [] ==> Run(c, obs, data).hasCollected
    ensures Run(c, obs, data).drive == c.drive
  {
    if obs != [] {
      var n := |obs| - 1;
      RaisedFlagHoldsHome(c, obs[..n], data[..n]);
      AwaitingClearStep(Run(c, obs[..n], data[..n]), obs[n], data[n]);
    }
  }

  /**
    The collection wait does not read the flag: two runs that differ only in
    what the flag says end in the same controller while the wait lasts.
   */
  lemma {:induction false} CollectingIgnoresFlag(c: Controller, obs: seq<Observation>, data: seq<string>, other: seq<string>)
    requires Inv(c) && c.wait.Collecting? && |obs| == |data| == |other|
    requires forall i :: 0 <= i < |obs| ==> obs[i].time - c.wait.start <= WaitSeconds
    ensures Run(c, obs, data) == Run(c, obs, other) == c
  {
    if obs != [] {
      var n := |obs| - 1;
      CollectingIgnoresFlag(c, obs[..n], data[..n], other[..n]);
    }
  }

  /**
    The robot reads the flag loosely where the supervisor compares it exactly:
    both agree on the two values the supervisor writes, but a padded or
    capitalised "Collected" reads as raised and differs from the one value the
    supervisor accepts.
   */
  lemma FlagReadings()
    ensures FlagRaised("collected") && !FlagRaised("not_collected")
    ensures FlagRaised(" Collected\n") && " Collected\n" != "collected"
  {
    SupervisorValues();
    PaddedRaised();
  }

  /** The node the controller reads its flag from; only the supervisor writes it. */
  class RobotNode {
    var customData: string

    constructor (customData: string)
      ensures this.customData == customData
    {
      this.customData := customData;
    }
  }

  /** The controller script's variables, updated in place once per tick. */
  class RosbotController {
    var state: State
    var wait: Wait
    var backStartTime: Option<real>
    var targetHeading: Option<real>
    var hasCollected: bool
    var drive: Option<Drive>

    function Snapshot(): Controller
      reads this
    {
      Controller(state, wait, backStartTime, targetHeading, hasCollected, drive)
    }

    constructor ()
      ensures Snapshot() == Initial
    {
      state, wait, backStartTime, targetHeading, hasCollected, drive :=
        ChooseDirection, Stepping, None, None, false, None;
    }

    /**
      One pass of the `while robot.step(...)` loop, or one pass of the wait loop
      the controller is in. It only reads the robot's `customData`.
     */
    method Step(o: Observation, node: RobotNode)
      requires Inv(Snapshot())
      modifies this
      ensures Inv(Snapshot())
      ensures Snapshot() == Next(old(Snapshot()), o, node.customData)
      ensures node.customData == old(node.customData)
    {
      var customData := node.customData;
      match wait
      case Collecting(start) =>
        if o.time - start > WaitSeconds {
          wait := Stepping;
          state := TurningToCenter;
        }
      case AwaitingClear(start) =>
        hasCollected := FlagRaised(customData);
        if o.time - start > WaitSeconds && !hasCollected {
          wait := Stepping;
          state := ChooseDirection;
        }
      case Stepping =>
        Advance(o, customData);
    }

    /** One pass of the main loop's body, dispatching on `state`. */
    method Advance(o: Observation, customData: string)
      requires Inv(Snapshot()) && wait == Stepping
      modifies this
      ensures Snapshot() == Next(old(Snapshot()), o, customData)
    {
      if state == ChooseDirection {
        targetHeading := Some(o.draw);
        state := Orienting;
      } else if state == Orienting {
        Orient(o, customData);
      } else if state == MovingOut {
        MoveOut(o, customData);
      } else if state == BackingUp {
        drive := Some(Drive(-TurnSpeed, -TurnSpeed));
        if o.time - backStartTime.value >= BackDuration {
          state := TurningToCenter;
        }
      } else if state == TurningToCenter {
        drive := Some(Drive(-MaxSpeed, MaxSpeed));
        if o.aligned {
          drive := Some(Drive(MaxSpeed, MaxSpeed));
          state := Returning;
        } else {
          drive := Some(Drive(-TurnSpeed, TurnSpeed));
        }
      } else {
        if o.dist <= HomeRadius {
          drive := Some(Drive(0.0, 0.0));
          wait := AwaitingClear(o.time);
        }
      }
    }

    /** `orienting`: turn towards the drawn heading, and move out once within two degrees of it. */
    method Orient(o: Observation, customData: string)
      requires Inv(Snapshot()) && wait == Stepping && state == Orienting
      modifies this
      ensures Snapshot() == Next(old(Snapshot()), o, customData)
    {
      var error := NormalizeAngle(targetHeading.value - o.heading);
      if Abs(error) < AlignTolerance {
        drive := Some(Drive(MaxSpeed, MaxSpeed));
        state := MovingOut;
      } else if error > 0.0 {
        drive := Some(Drive(-TurnSpeed, TurnSpeed));
      } else {
        drive := Some(Drive(TurnSpeed, -TurnSpeed));
      }
    }

    /** `moving_out`: drive out, back up at the wall, and stop to collect when the flag is raised. */
    method MoveOut(o: Observation, customData: string)
      requires Inv(Snapshot()) && wait == Stepping && state == MovingOut
      modifies this
      ensures Snapshot() == Next(old(Snapshot()), o, customData)
    {
      drive := Some(Drive(MaxSpeed, MaxSpeed));
      if o.dist >= WallDistance {
        backStartTime := Some(o.time);
        drive := Some(Drive(-MaxSpeed, -MaxSpeed));
        state := BackingUp;
      }
      hasCollected := FlagRaised(customData);
      if hasCollected {
        drive := Some(Drive(0.0, 0.0));
        wait := Collecting(o.time);
      }
    }
  }
}
