/**
  The supervisor controller's own state and its per-tick work: the roster read
  at start-up, the resource spots it creates, the cylinders it refreshes, and the
  trip-completion bookkeeping over the robots' shared `customData` flags.
 */
module SupervisorController {
  import opened Wrappers
  import opened Text
  import opened Teams
  import opened Resources
  import opened Bookkeeping
  import Scoreboard

  class Supervisor {
    /** The Rosbots found in the scene at start-up, in scene order, and their team labels. */
    const robotNames: seq<string>
    const robotTeams: map<string, string>
    /** The `customData` field of each robot the supervisor can look up by name. */
    var customData: map<string, string>
    /** `teams_resources_counter`. */
    var counter: map<string, nat>
    /** The entries appended to the collection log this run. */
    var log: seq<LogEntry>
    /** `resource_data`: the records of the spots created at start-up. */
    var resourceData: seq<ResourceRecord>
    /** The resource cylinders present in the scene, keyed by the index in their `RESOURCE_<index>` name. */
    var resourceNodes: map<nat, real>

    function State(): Books
      reads this
    {
      Books(customData, counter, log)
    }

    /** The counter agrees with the log, the log is numbered per team, and every team label is canonical. */
    ghost predicate Valid()
      reads this
    {
      && Consistent(State())
      && LowercaseTeams(log)
      && forall n :: n in robotTeams ==> IsCanonical(robotTeams[n])
    }

    /**
      Start-up: the roster scan over the scene's children, and the log file and
      counter reset. `robots` is the `customData` of each robot node.
     */
    constructor (children: seq<WorldChild>, robots: map<string, string>)
      ensures robotNames == RosbotNames(children) && robotTeams == RosbotTeams(children)
      ensures customData == robots && counter == map[] && log == []
      ensures resourceData == [] && resourceNodes == map[]
      ensures Valid()
    {
      var names, teams := RegisterRobots(children);
      RegisteredTeams(children);
      robotNames, robotTeams := names, teams;
      customData, counter, log := robots, map[], [];
      resourceData, resourceNodes := [], map[];
    }

    /** `generate_resource_spot`: records the spot and creates its cylinder with the radius for its value. */
    method GenerateResourceSpot(value: int, index: nat, x: real, y: real)
      requires Valid()
      modifies this
      ensures Valid()
      ensures resourceData == old(resourceData) + [ResourceRecord(index, x, y, value)]
      ensures resourceNodes == old(resourceNodes)[index := ShapeRadius(value as real)]
      ensures customData == old(customData) && counter == old(counter) && log == old(log)
    {
      resourceData := resourceData + [ResourceRecord(index, x, y, value)];
      resourceNodes := resourceNodes[index := ShapeRadius(value as real)];
    }

    /**
      `generate_resources`: one spot per drawn value, indexed from 0. The values
      `randint` draws and the polar positions are passed in.
     */
    method GenerateResources(values: seq<int>, spots: seq<(real, real)>)
      requires |values| == NumResources && |spots| == NumResources
      requires forall i :: 0 <= i < |values| ==> ResourceMin <= values[i] <= ResourceMax
      requires Valid()
      modifies this
      ensures Valid()
      ensures resourceData == old(resourceData) + SeededRecords(values, spots)
      ensures resourceNodes == old(resourceNodes) + SeededNodes(values)
      ensures forall i :: 0 <= i < NumResources ==> 0.1 <= resourceNodes[i] <= 0.28
      ensures customData == old(customData) && counter == old(counter) && log == old(log)
    {
      for i := 0 to NumResources
        invariant resourceData == old(resourceData) + SeededRecords(values[..i], spots[..i])
        invariant resourceNodes == old(resourceNodes) + SeededNodes(values[..i])
        invariant customData == old(customData) && counter == old(counter) && log == old(log)
      {
        SeededStep(values, spots, i, old(resourceData), old(resourceNodes));
        GenerateResourceSpot(values[i], i, spots[i].0, spots[i].1);
      }
      assert values[..NumResources] == values && spots[..NumResources] == spots;
      forall i | 0 <= i < NumResources ensures 0.1 <= resourceNodes[i] <= 0.28 {
        assert resourceNodes[i] == SeededNodes(values)[i];
        ShapeRadiusRange(values[i] as real);
      }
    }

    /**
      `update_resource_shapes`: the records of the resource file in order; the
      removed indices are returned as the removal notices.
     */
    method UpdateResourceShapes(updated: Option<seq<ValueField>>) returns (removed: seq<nat>)
      requires Valid()
      modifies this
      ensures Valid()
      ensures resourceNodes == RefreshFile(old(resourceNodes), updated).nodes
      ensures removed == RefreshFile(old(resourceNodes), updated).removed
      ensures customData == old(customData) && counter == old(counter) && log == old(log)
      ensures resourceData == old(resourceData)
    {
      removed := [];
      if updated.None? {
        return;
      }
      var fields := updated.value;
      for i := 0 to |fields|
        invariant Refresh(old(resourceNodes), fields[..i]) == Refreshed(resourceNodes, removed, false)
        invariant customData == old(customData) && counter == old(counter) && log == old(log)
        invariant resourceData == old(resourceData)
      {
        assert fields[..i + 1][..i] == fields[..i];
        var field := fields[i];
        if field.NoValue? {
          RefreshSticks(old(resourceNodes), fields, i + 1);
          return;
        }
        if i !in resourceNodes {
          continue;
        }
        if field.NotNumber? {
          RefreshSticks(old(resourceNodes), fields, i + 1);
          return;
        }
        if field.v <= 0.0 {
          resourceNodes := resourceNodes - {i};
          removed := removed + [i];
        } else {
          resourceNodes := resourceNodes[i := ShapeRadius(field.v)];
        }
      }
      assert fields[..|fields|] == fields;
    }

    /**
      `log_collected_resources`: returns the first rostered robot that could not be
      looked up, where the source raises.
     */
    method LogCollectedResources(distance: string -> real) returns (missing: Option<string>)
      requires Valid()
      modifies this
      ensures Valid()
      ensures State() == LogTick(old(State()), robotNames, robotTeams, distance).books
      ensures missing == LogTick(old(State()), robotNames, robotTeams, distance).missing
      ensures resourceData == old(resourceData) && resourceNodes == old(resourceNodes)
    {
      ghost var start := State();
      missing := None;
      for i := 0 to |robotNames|
        invariant LogTick(start, robotNames[..i], robotTeams, distance) == Tick(State(), None)
        invariant resourceData == old(resourceData) && resourceNodes == old(resourceNodes)
      {
        LogTickNext(start, robotNames, robotTeams, distance, i);
        var name := robotNames[i];
        if name !in customData {
          LogTickSticks(start, robotNames, robotTeams, distance, i + 1);
          missing := Some(name);
          break;
        }
        VisitRobot(name, distance);
      }
      if missing.None? {
        assert robotNames[..|robotNames|] == robotNames;
      }
      forall n | n in robotTeams ensures Lower(robotTeams[n]) == robotTeams[n] {
        LowerOfLowerCase(robotTeams[n]);
      }
      LogTickConsistent(start, robotNames, robotTeams, distance);
      LogTickLowercase(start, robotNames, robotTeams, distance);
    }

    /** The body of the roster loop for one robot that can be looked up. */
    method VisitRobot(name: string, distance: string -> real)
      requires name in customData
      modifies this
      ensures State() == Visit(old(State()), name, robotTeams, distance).books
      ensures resourceData == old(resourceData) && resourceNodes == old(resourceNodes)
    {
      if distance(name) <= HomeRadius && HasRecollected(customData, name).value {
        customData := customData[name := NotCollected];
        var team := TeamOf(robotTeams, name);
        counter := counter[team := Scoreboard.Get(counter, team) + 1];
        log := log + [LogEntry(name, team, counter[team])];
      }
    }

    /** `read_team_scores` over this run's log file: it always succeeds and agrees with the counter. */
    method ReadTeamScores() returns (scores: Result<map<string, nat>, nat>)
      requires Valid()
      ensures scores == Scoreboard.ReadScores(LogFile(log))
      ensures scores.Success?
      ensures forall t :: t != "" ==> Scoreboard.Get(scores.value, t) == Scoreboard.Get(counter, t)
    {
      scores := Scoreboard.ReadTeamScores(LogFile(log));
      ReplayEqualsCounter(State());
    }

    /** One tick of the supervisor's main loop: the shape refresh, then the trip bookkeeping. */
    method Step(updated: Option<seq<ValueField>>, distance: string -> real) returns (removed: seq<nat>, missing: Option<string>)
      requires Valid()
      modifies this
      ensures Valid()
      ensures resourceNodes == RefreshFile(old(resourceNodes), updated).nodes
      ensures removed == RefreshFile(old(resourceNodes), updated).removed
      ensures State() == LogTick(old(State()), robotNames, robotTeams, distance).books
      ensures missing == LogTick(old(State()), robotNames, robotTeams, distance).missing
      ensures resourceData == old(resourceData)
    {
      removed := UpdateResourceShapes(updated);
      missing := LogCollectedResources(distance);
    }
  }
}
