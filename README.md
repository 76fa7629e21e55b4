# Foraging arena controllers

This project models the two controllers of a Webots foraging simulation.

The **supervisor** does the following:
- At start-up it scans the scene for Rosbot robots and records each robot's team label, which is the controller argument stripped and lower-cased.
- It seeds ten yellow resource cylinders. Each one's radius grows with its value.
- Every tick it refreshes the cylinders from the resource file. A cylinder whose value is zero or less is removed; the others are resized.
- Every tick it also visits the robots in roster order. A robot that is home (within 0.3 of the centre) with its `customData` flag equal to "collected" has the flag set back to "not_collected". Its team counter is then incremented and one JSON line is appended to the collection log.
- It could rebuild the scoreboard from that log, although its main loop never does.

The **robot** runs a six-state machine, once per simulation step:
- `choose_direction` → `orienting` → `moving_out`;
- then either `backing_up` after hitting the wall, or a two-second collection wait when its flag reads "collected";
- → `turning_to_center` → `returning`;
- → a wait at home that lasts until more than two seconds have passed and the flag no longer reads as raised;
- → back to `choose_direction`.

## Modules
- `Wrappers`: `Option` and `Result`.
- `Text`: Python's `strip()` and `lower()`.
- `Teams`: `get_team_from_color` and the roster scan.
- `Scoreboard`: `read_team_scores` over a log file given as a sequence of parsed lines.
- `Resources`: the resource record, the radius formula, and `update_resource_shapes` as a pure function over the cylinders present.
- `Bookkeeping`: `has_recollected` and `log_collected_resources` as pure functions over the robots' flags, the counter and the log.
- `SupervisorController`: the supervisor class. Its methods update its fields in place and are proved equal to those functions.
- `Angles`: `normalize_angle`.
- `Rosbot`: the robot's state machine as a pure step function `Next`, plus the controller class whose `Step` method is proved equal to it.
- `Handshake`: how the two controllers read the shared flag differently.

The robot's blocking inner loops are two wait sub-states: `Collecting(start)` for the collection wait and `AwaitingClear(start)` for the wait at home. Each simulation step inside one of those loops is one call of `Next`.

## Model

| member | source | states |
|---|---|---|
| Teams.TeamFromColor | controllers/supervisor_controller/supervisor_controller.py:21-30 | The result is one of "red", "green", "blue" or "unknown". Red holds iff red beats both other channels by the tolerance. Green holds iff red does not and green does. Blue holds iff neither earlier test holds and blue beats the others. "unknown" holds iff none of the three tests holds. |
| Teams.TeamFromColorOrderFree | controllers/supervisor_controller/supervisor_controller.py:21-30 | With a positive tolerance the three tests exclude one another. So each colour is returned exactly when its own test holds, whatever the order of the branches. |
| Teams.TeamFromColorOrderMattersAtZero | controllers/supervisor_controller/supervisor_controller.py:21-30 | With tolerance 0 a grey colour passes every test and the first branch, "red", wins. |
| Teams.TeamLabel | controllers/supervisor_controller/supervisor_controller.py:74-75 | The normalised label has no space at either end and no upper-case letter. It is its own lower-case form. A label already in that form is kept unchanged. |
| Teams.RosbotNames | controllers/supervisor_controller/supervisor_controller.py:69-73 | Defines the roster: the names of the Rosbot children in scene order, duplicates kept. |
| Teams.RosbotTeams | controllers/supervisor_controller/supervisor_controller.py:69-76 | Defines the name-to-label map the scan builds, a later Rosbot with the same name overriding an earlier one. |
| Teams.RegisterRobots | controllers/supervisor_controller/supervisor_controller.py:69-76 | The scan loop returns the names of the Rosbot children in scene order and the map from name to normalised label. |
| Teams.RegisteredTeams | controllers/supervisor_controller/supervisor_controller.py:69-76 | The team map's keys are exactly the rostered names. Every label is canonical. Every Rosbot's name is a key. The last Rosbot with a given name decides that name's label. |
| Text.NormalizeCanonical | controllers/supervisor_controller/supervisor_controller.py:75 | `strip().lower()` yields a canonical string, and it leaves a canonical string unchanged. |
| Text.NormalizeIdempotent | controllers/supervisor_controller/supervisor_controller.py:75 | Normalising twice is the same as normalising once. |
| Scoreboard.Classify | controllers/supervisor_controller/supervisor_controller.py:40-43 | A line that is counted names a non-empty, lower-case team. |
| Scoreboard.Inc | controllers/supervisor_controller/supervisor_controller.py:43 | The Counter increment adds one to its key's count and leaves every other key's count unchanged. |
| Scoreboard.Tally | controllers/supervisor_controller/supervisor_controller.py:37-46 | Defines the replay of the log's lines in file order: skipped lines change nothing, a counted line increments its team, and the first line that raises ends the replay with its index. |
| Scoreboard.ReadScores | controllers/supervisor_controller/supervisor_controller.py:32-46 | Defines `read_team_scores`: no log file gives an empty Counter, otherwise the replay of its lines. |
| Scoreboard.TallyCounts | controllers/supervisor_controller/supervisor_controller.py:32-46 | When the read succeeds, each team's score equals the number of lines that name it, counted independently. A team is a key iff it occurs. The empty team is never a key. |
| Scoreboard.TallyFailsAtFirstCrash | controllers/supervisor_controller/supervisor_controller.py:38-45 | The read fails iff some line is valid JSON but not an object, or has a non-string team. It then reports the first such line. |
| Scoreboard.MissingOrEmptyTeamSkips | controllers/supervisor_controller/supervisor_controller.py:41-42 | An object line is skipped iff its team is missing or is the empty string. |
| Scoreboard.SkipLineIgnored | controllers/supervisor_controller/supervisor_controller.py:40-45 | Inserting a skipped line anywhere (one that does not parse, or one with a missing or empty team) changes neither the outcome nor the scores, so such a line does not stop the scan. |
| Scoreboard.ReadTeamScores | controllers/supervisor_controller/supervisor_controller.py:32-46 | The loop with its early exit computes the specification: an empty Counter when there is no file, else the tally. |
| Resources.ShapeRadius | controllers/supervisor_controller/supervisor_controller.py:83 | Defines the cylinder radius for a value, `0.1 + (value - 1) * 0.02`, used both at creation and at the refresh (line 149). |
| Resources.ShapeRadiusGrows | controllers/supervisor_controller/supervisor_controller.py:83 | The radius strictly increases with the value. |
| Resources.ShapeRadiusRange | controllers/supervisor_controller/supervisor_controller.py:81-83 | Values 1..10 give radii between 0.1 and 0.28, value 1 giving 0.1 and value 10 giving 0.28. |
| Resources.SeededRecords | controllers/supervisor_controller/supervisor_controller.py:115-118 | The seeding produces one record per drawn value: record `i` has index `i` and the `i`-th value. |
| Resources.SeededNodes | controllers/supervisor_controller/supervisor_controller.py:93-112 | Exactly the indices `0..n-1` get a cylinder, each with the radius of its value. |
| Resources.RefreshAt | controllers/supervisor_controller/supervisor_controller.py:136-155 | Defines one iteration of the refresh loop: a missing value raises, then a missing node is skipped, then a non-numeric value raises, a value ≤ 0 removes the node and a positive value sets its radius. |
| Resources.Refresh | controllers/supervisor_controller/supervisor_controller.py:131-158 | Defines the refresh over the file's records in order, stopping at the first record that raises. |
| Resources.RefreshFile | controllers/supervisor_controller/supervisor_controller.py:131-158 | Defines the whole refresh: a file that cannot be read or parsed raises before any record and changes nothing. |
| Resources.RefreshSticks | controllers/supervisor_controller/supervisor_controller.py:157-158 | Once a record has raised, the remaining records change nothing. |
| Resources.RefreshSpec | controllers/supervisor_controller/supervisor_controller.py:131-158 | Cylinders are only ever removed. The refresh aborts iff some record lacks a value, or has a non-numeric value while its node exists. Every record before the abort is removed if its value is ≤ 0, resized if positive, or skipped if it has no node. Every other cylinder is untouched. The removed list is ascending and holds exactly the existing indices with value ≤ 0. |
| Resources.RemovedAtMostOnce | controllers/supervisor_controller/supervisor_controller.py:140-145 | A removed cylinder was present and is gone afterwards, so no later refresh removes it again. |
| Resources.RefreshIdempotent | controllers/supervisor_controller/supervisor_controller.py:131-158 | Refreshing twice from the same file gives the same cylinders as once, and the second pass removes nothing. |
| Resources.CreationMatchesRefresh | controllers/supervisor_controller/supervisor_controller.py:149 | Refreshing freshly seeded cylinders with their own values changes nothing: the creation and update radius formulas agree. |
| Bookkeeping.Visit | controllers/supervisor_controller/supervisor_controller.py:170-192 | Defines one robot's visit: a robot that cannot be looked up raises; a robot that is home with its flag exactly "collected" has the flag cleared, its team counter incremented and one entry appended; any other robot changes nothing. |
| Bookkeeping.LogTick | controllers/supervisor_controller/supervisor_controller.py:167-192 | Defines the tick as the visits in roster order, stopping at the first robot that cannot be looked up. |
| Bookkeeping.TeamOf | controllers/supervisor_controller/supervisor_controller.py:185 | A robot's team is its registered label, or "unknown" when it has none. |
| Bookkeeping.HasRecollected | controllers/supervisor_controller/supervisor_controller.py:160-165 | The call fails, naming the robot, iff it cannot be looked up. Otherwise it returns true iff the flag is exactly "collected". |
| Bookkeeping.LogTickMissing | controllers/supervisor_controller/supervisor_controller.py:169-170 | A tick fails iff some rostered robot cannot be looked up. It then names the first such robot and keeps the effects of the robots visited before it. |
| Bookkeeping.LogTickFlags | controllers/supervisor_controller/supervisor_controller.py:174-182 | After a successful tick, each qualifying robot's flag is "not_collected" and every other flag is unchanged. A robot qualifies when it is rostered, home and flagged. |
| Bookkeeping.LogTickOneEntryPerTrip | controllers/supervisor_controller/supervisor_controller.py:167-192 | A successful tick appends exactly one entry for each qualifying robot and none for any other robot. |
| Bookkeeping.Trips | controllers/supervisor_controller/supervisor_controller.py:169-192 | Defines, independently of the tick, the robots a tick should log: the roster filtered to the first occurrence of each robot that is home with its flag raised when the tick starts. |
| Bookkeeping.LogTickOrder | controllers/supervisor_controller/supervisor_controller.py:169-192 | The robots of the entries a successful tick appends are exactly the trips, in roster order. |
| Bookkeeping.TripsInRosterOrder | controllers/supervisor_controller/supervisor_controller.py:169 | Every trip is a rostered robot, and an earlier trip's robot first appears on the roster before a later one's. |
| Bookkeeping.LogTickRosterOrder | controllers/supervisor_controller/supervisor_controller.py:169-192 | Of two entries a successful tick appends, the earlier one's robot first appears on the roster before the later one's. |
| Bookkeeping.LogTickTeams | controllers/supervisor_controller/supervisor_controller.py:185-189 | Every appended entry carries its robot's team, or "unknown". |
| Bookkeeping.LogTickCounters | controllers/supervisor_controller/supervisor_controller.py:185-186 | Each team's counter grows by exactly that team's number of appended entries. |
| Bookkeeping.LogTickAppendOnly | controllers/supervisor_controller/supervisor_controller.py:184-192 | The log is only appended to, and the set of robots that can be looked up never changes. |
| Bookkeeping.LogTickNoop | controllers/supervisor_controller/supervisor_controller.py:174-176 | When no rostered robot is both home and flagged, a tick changes nothing. |
| Bookkeeping.LogTickIdempotent | controllers/supervisor_controller/supervisor_controller.py:167-192 | With the same positions, a second tick right after a successful one changes nothing, so a trip is never counted twice. |
| Bookkeeping.LogTickConsistent | controllers/supervisor_controller/supervisor_controller.py:186-190 | A tick keeps two facts true: the counter equals the per-team count of log entries, and each entry's `resources_collected` is its team's running count. |
| Bookkeeping.LogTickLowercase | controllers/supervisor_controller/supervisor_controller.py:185 | When all labels are lower-case, every team in the log stays lower-case. |
| Bookkeeping.TeamValuesCountUp | controllers/supervisor_controller/supervisor_controller.py:186-190 | In a numbered log, a team's `resources_collected` values are exactly 1, 2, …, n. |
| Bookkeeping.EntryLine | controllers/supervisor_controller/supervisor_controller.py:187-192 | Defines the JSON object `json.loads` reads back from an entry's line: `robot`, `team` and `resources_collected`. |
| Bookkeeping.LogFile | controllers/supervisor_controller/supervisor_controller.py:184-197 | Defines the log file: none after the start-up deletion until the first append, then one line per entry in order. |
| Bookkeeping.ReplayEqualsCounter | controllers/supervisor_controller/supervisor_controller.py:32-46 | Reading back the log the supervisor writes succeeds. It gives every non-empty team the supervisor's own counter value. |
| Bookkeeping.BlankTeamNotReplayed | controllers/supervisor_controller/supervisor_controller.py:186-192 | A robot whose label is blank and which comes home flagged is counted under "" and logged, yet replaying the log (line 42 skips an empty team) gives an empty scoreboard. |
| Bookkeeping.InitialConsistent | controllers/supervisor_controller/supervisor_controller.py:194-197 | An empty counter with no log file is consistent. |
| SupervisorController.Supervisor.constructor | controllers/supervisor_controller/supervisor_controller.py:59-76 | Start-up builds the roster with the scan, starts with no counts and no log, and establishes the class invariant. |
| SupervisorController.Supervisor.GenerateResourceSpot | controllers/supervisor_controller/supervisor_controller.py:78-112 | Appends the record and adds the cylinder `RESOURCE_<index>` with the value's radius. Nothing else changes. |
| SupervisorController.Supervisor.GenerateResources | controllers/supervisor_controller/supervisor_controller.py:115-121 | Adds the ten seeded records and cylinders. Every radius lies in [0.1, 0.28]. |
| SupervisorController.Supervisor.UpdateResourceShapes | controllers/supervisor_controller/supervisor_controller.py:131-158 | The loop's new cylinders and removed list equal the refresh specification. A file that cannot be read changes nothing. |
| SupervisorController.Supervisor.LogCollectedResources | controllers/supervisor_controller/supervisor_controller.py:167-192 | The loop's new flags, counter and log equal the tick specification, the invariant is kept, and the first robot that cannot be looked up is reported. |
| SupervisorController.Supervisor.VisitRobot | controllers/supervisor_controller/supervisor_controller.py:174-192 | One robot's visit: it clears the flag, increments the team counter and appends the entry exactly as `Visit` says. |
| SupervisorController.Supervisor.ReadTeamScores | controllers/supervisor_controller/supervisor_controller.py:32-46 | Reading the supervisor's own log always succeeds and reproduces its counter for every non-empty team. |
| SupervisorController.Supervisor.Step | controllers/supervisor_controller/supervisor_controller.py:200-204 | One supervisor tick: the refresh, then the trip bookkeeping, each as specified. |
| Angles.Wrap | controllers/rosbot_controller/rosbot_controller.py:66-71 | The result lies in [-π, π], and an angle already in range is returned unchanged. |
| Angles.WrapFullTurn | controllers/rosbot_controller/rosbot_controller.py:66-71 | Adding a full turn to any angle other than -π, or removing one from any angle other than π, does not change the normalised angle. At those two boundary angles it does change. |
| Angles.WrapByWholeTurns | controllers/rosbot_controller/rosbot_controller.py:66-71 | The normalised angle differs from the input by a whole number of full turns. |
| Angles.NormalizeAngle | controllers/rosbot_controller/rosbot_controller.py:66-71 | The two while loops compute `Wrap`. |
| Rosbot.Next | controllers/rosbot_controller/rosbot_controller.py:92-177 | Each step keeps the controller invariant: orienting has a target heading, backing up has a start time, and each wait belongs to the state that starts it. |
| Rosbot.InitialInv | controllers/rosbot_controller/rosbot_controller.py:40-46 | The initial controller satisfies the invariant. |
| Rosbot.ChooseDirectionStep | controllers/rosbot_controller/rosbot_controller.py:101-104 | The drawn heading becomes the target, and the state becomes `orienting`. |
| Rosbot.OrientingStep | controllers/rosbot_controller/rosbot_controller.py:106-119 | The robot moves out at (6, 6) iff the wrapped heading error is under two degrees. Otherwise it stays and spins at (-3, 3) for a positive error or (3, -3) for a non-positive one. |
| Rosbot.MovingOutGuardOrder | controllers/rosbot_controller/rosbot_controller.py:121-139 | At the wall the robot records the time and starts backing up. Then a raised flag overrides that: the robot stops and starts the collection wait. `has_collected` records the flag reading. |
| Rosbot.CollectingStep | controllers/rosbot_controller/rosbot_controller.py:133-139 | The collection wait ends in `turning_to_center` once more than two seconds have passed. Until then nothing changes. |
| Rosbot.CollectingIgnoresFlag | controllers/rosbot_controller/rosbot_controller.py:134-136 | During the collection wait the flag is not read, so any flag values give the same controller. |
| Rosbot.FlagBeatsWall | controllers/rosbot_controller/rosbot_controller.py:121-139 | When the wall and the flag coincide, the robot goes to `turning_to_center` after the wait and never backs up. |
| Rosbot.BackingUpStep | controllers/rosbot_controller/rosbot_controller.py:141-144 | The robot reverses at (-3, -3). It turns iff at least one second has passed since the wall. |
| Rosbot.TurningStep | controllers/rosbot_controller/rosbot_controller.py:146-157 | The robot heads home at (6, 6) iff aligned. Otherwise it keeps spinning at (-3, 3). |
| Rosbot.ReturningStep | controllers/rosbot_controller/rosbot_controller.py:159-165 | Farther than 0.3 from the centre nothing changes. At home the robot stops and starts the wait at home. |
| Rosbot.AwaitingClearStep | controllers/rosbot_controller/rosbot_controller.py:165-177 | The wait at home ends in `choose_direction` iff more than two seconds have passed and the flag is not raised. `has_collected` tracks the flag. |
| Rosbot.HomeWaitIsNotATimeout | controllers/rosbot_controller/rosbot_controller.py:166-171 | No matter how much time has passed, a raised flag keeps the robot waiting. |
| Rosbot.RaisedFlagHoldsHome | controllers/rosbot_controller/rosbot_controller.py:166-171 | Over any run of steps in which the flag stays raised, the wait at home never ends and the wheel speeds do not change. |
| Rosbot.NextFollowsCycle | controllers/rosbot_controller/rosbot_controller.py:92-177 | Every step follows an edge of the cycle. `choose_direction` is re-entered only from the wait at home, with the flag cleared. |
| Rosbot.NoTerminalState | controllers/rosbot_controller/rosbot_controller.py:92-177 | From every reachable controller, some observation changes the state or the wait. |
| Rosbot.Run | controllers/rosbot_controller/rosbot_controller.py:92 | Any run of steps keeps the invariant. |
| Rosbot.FlagRaised | controllers/rosbot_controller/rosbot_controller.py:129 | Defines the robot's reading of the flag, `customData.strip().lower() == "collected"`, used in `moving_out` and again in the wait at home (line 168). |
| Rosbot.SupervisorValues | controllers/rosbot_controller/rosbot_controller.py:168 | "collected" reads as raised and "not_collected" does not. |
| Rosbot.FlagReadings | controllers/rosbot_controller/rosbot_controller.py:129 | The robot accepts " Collected\n" as raised, but the supervisor's exact comparison does not. |
| Handshake.PaddedFlagStrands | controllers/rosbot_controller/rosbot_controller.py:166-171 | A robot whose flag holds " Collected\n" stays in the wait at home for as long as the flag keeps that value, and the supervisor's visit (supervisor_controller.py:160-165) neither clears that flag nor logs a trip. |
| Rosbot.RosbotController.constructor | controllers/rosbot_controller/rosbot_controller.py:40-46 | The controller starts in `choose_direction` with nothing set. |
| Rosbot.RosbotController.Advance | controllers/rosbot_controller/rosbot_controller.py:101-165 | The state dispatch of the main loop's body updates the variables exactly as `Next` does. |
| Rosbot.RosbotController.Orient | controllers/rosbot_controller/rosbot_controller.py:106-119 | The `orienting` branch, with its call to `normalize_angle`, updates the variables exactly as `Next` does. |
| Rosbot.RosbotController.MoveOut | controllers/rosbot_controller/rosbot_controller.py:121-133 | The `moving_out` branch updates the variables exactly as `Next` does, up to the start of the collection wait. |
| Rosbot.RosbotController.Step | controllers/rosbot_controller/rosbot_controller.py:92-177 | One pass of the main loop, or of the inner wait loop, updates the controller's variables exactly as `Next` does. It only reads the flag. |

## Left out
- The Webots API is not modelled: devices, motors, `getFromDef`, node fields and the VRML import string. A robot that can be looked up is a key in `customData`, and a cylinder is an entry of `resourceNodes` keyed by its index.
- File and JSON I/O is not modelled. The resource file is `Option<seq<ValueField>>`, where `None` means a file that cannot be read or parsed. The log file is `Option<seq<LogLine>>`, where `None` means no file. Appending a JSON line is appending a `LogEntry`.
- Randomness is taken as parameters: the drawn values and spots in `GenerateResources`, and the drawn heading in the robot's observation.
- GPS, compass, `math.atan2`, `math.sqrt` and `will_hit_center` are not computed. They are the observation's `dist`, `heading` and `aligned` fields, and the supervisor's `distance` function.
- Floating point is modelled as exact reals. `CENTER_TOLERANCE + 0.2` is 0.3 here but 0.30000000000000004 in Python. π is the literal 3.141592653589793.
- `Text.Lower`: lowers ASCII letters only. Python's `lower()` also handles non-ASCII letters.
- `print`, and `print_scoreboard_if_changed` with its `last_printed_scores`, are output only and are left out.
- The loop over `has_collected_states` at lines 62-63 runs over an empty list and is left out.
- Each resource's name string `resource_<index>` is represented by its index.
- The end of the simulation (`step` returning -1) is not modelled, neither in the main loops nor inside the robot's inner waits.
- `get_team_from_color` is modelled but never called by the supervisor.
- `read_team_scores` is modelled but never called by the supervisor's main loop (lines 200-204). Like `print_scoreboard_if_changed`, it is not reached when the script runs.
- A robot whose `controllerArgs` label is blank gets the team "". Its trips are counted and logged under "", but replaying the log skips those lines, so replay matches the counter only for non-empty teams (`Bookkeeping.BlankTeamNotReplayed`).
- The spot positions are inputs: the draw of the distance in [1.0, `RADIUS` - 0.2] and of the angle, and the polar-to-Cartesian conversion, are not modelled.
- `Supervisor.GenerateResources`: assumes the scene holds no earlier `RESOURCE_<i>` nodes, so the new cylinders are simply added.
- The robot's motors start at no intent (`drive == None`) rather than at a modelled speed, and `current_left_speed`/`current_right_speed` are not tracked.
- `SupervisorController.Supervisor.Step`: the source's uncaught `AttributeError` for a rostered robot that cannot be looked up (line 170) ends the supervisor script. The model returns that robot in `missing` and does not model the script's end, so a caller may keep calling `Step`.
- `Rosbot.Next`: an exception in the robot controller is not modelled. Given the invariant, none can occur.
