/**
  Trip completion: each tick the supervisor visits the robots in roster order,
  and every robot that is home with its flag raised has the flag cleared, its
  team counter incremented and one entry appended to the collection log.
 */
module Bookkeeping {
  import opened Wrappers
  import opened Text
  import opened Scoreboard

  const CenterTolerance: real := 0.1
  /** A robot within this distance of the centre is home (`CENTER_TOLERANCE + 0.2`). */
  const HomeRadius: real := CenterTolerance + 0.2
  const Collected: string := "collected"
  const NotCollected: string := "not_collected"
  const UnknownTeam: string := "unknown"

  /** One line of the collection log: the robot, its team and the team's count after this collection. */
  datatype LogEntry = LogEntry(robot: string, team: string, collected: nat)

  /**
    What the trip-completion step reads and writes: each robot's `customData`
    (the key set is the robots the supervisor can look up), the team counter and
    the log.
   */
  datatype Books = Books(customData: map<string, string>, counter: map<string, nat>, log: seq<LogEntry>)

  /** The state after a tick, and the first robot that could not be looked up (which raises). */
  datatype Tick = Tick(books: Books, missing: Option<string>)

  /** A robot's team; a robot without a registered team counts for "unknown". */
  function TeamOf(teams: map<string, string>, name: string): (team: string)
    ensures name in teams ==> team == teams[name]
    ensures name !in teams ==> team == UnknownTeam
  {
    if name in teams then teams[name] else UnknownTeam
  }

  /** `has_recollected`: an unknown robot raises; otherwise the flag must be exactly "collected". */
  function HasRecollected(customData: map<string, string>, name: string): (r: Result<bool, string>)
    ensures r.Failure? <==> name !in customData
    ensures r.Failure? ==> r.error == name
    ensures r.Success? ==> (r.value <==> customData[name] == Collected)
  {
    if name !in customData then Failure(name) else Success(customData[name] == Collected)
  }

  /** The visit of one robot in `log_collected_resources`. */
  function Visit(b: Books, name: string, teams: map<string, string>, distance: string -> real): Tick {
    if name !in b.customData then Tick(b, Some(name))
    else if distance(name) <= HomeRadius && HasRecollected(b.customData, name).value then
      var team := TeamOf(teams, name);
      var n := Get(b.counter, team) + 1;
      Tick(Books(b.customData[name := NotCollected], b.counter[team := n], b.log + [LogEntry(name, team, n)]), None)
    else
      Tick(b, None)
  }

  /** `log_collected_resources`: the robots in roster order; the first one that cannot be looked up ends the tick. */
  function LogTick(b: Books, names: seq<string>, teams: map<string, string>, distance: string -> real): Tick {
    if names == [] then Tick(b, None)
    else
      var n := |names| - 1;
      var before := LogTick(b, names[..n], teams, distance);
      if before.missing.Some? then before else Visit(before.books, names[n], teams, distance)
  }

  /** Once a prefix of the roster has failed, the whole tick ends in the same state. */
  lemma {:induction false} LogTickSticks(b: Books, names: seq<string>, teams: map<string, string>, distance: string -> real, k: nat)
    requires k <= |names| && LogTick(b, names[..k], teams, distance).missing.Some?
    ensures LogTick(b, names, teams, distance) == LogTick(b, names[..k], teams, distance)
  {
    if k < |names| {
      var n := |names| - 1;
      assert names[..n][..k] == names[..k];
      LogTickSticks(b, names[..n], teams, distance, k);
    } else {
      assert names[..k] == names;
    }
  }

  /** Extending the roster by one robot adds one visit to a tick that has not failed. */
  lemma LogTickNext(b: Books, names: seq<string>, teams: map<string, string>, distance: string -> real, i: nat)
    requires i < |names|
    requires LogTick(b, names[..i], teams, distance).missing.None?
    ensures LogTick(b, names[..i + 1], teams, distance) ==
      Visit(LogTick(b, names[..i], teams, distance).books, names[i], teams, distance)
  {
    assert names[..i + 1][..i] == names[..i];
  }

  /** Robot `n` is on the roster, home, and has its flag raised when the tick starts. */
  predicate Qualifies(b: Books, names: seq<string>, n: string, distance: string -> real) {
    n in names && n in b.customData && distance(n) <= HomeRadius && b.customData[n] == Collected
  }

  /** The number of entries for team `t`. */
  function CountTeam(log: seq<LogEntry>, t: string): nat {
    if log == [] then 0
    else CountTeam(log[..|log| - 1], t) + if log[|log| - 1].team == t then 1 else 0
  }

  /** The number of entries for robot `n`. */
  function CountRobot(log: seq<LogEntry>, n: string): nat {
    if log == [] then 0
    else CountRobot(log[..|log| - 1], n) + if log[|log| - 1].robot == n then 1 else 0
  }

  /** Each entry holds its team's number of entries up to and including itself. */
  predicate Numbered(log: seq<LogEntry>) {
    forall i :: 0 <= i < |log| ==> log[i].collected == CountTeam(log[..i + 1], log[i].team)
  }

  /** The counter is what replaying the log counts, and the log is numbered per team. */
  ghost predicate Consistent(b: Books) {
    (forall t :: Get(b.counter, t) == CountTeam(b.log, t)) && Numbered(b.log)
  }

  predicate LowercaseTeams(log: seq<LogEntry>) {
    forall i :: 0 <= i < |log| ==> Lower(log[i].team) == log[i].team
  }

  lemma CountAppend(log: seq<LogEntry>, e: LogEntry)
    ensures forall t :: CountTeam(log + [e], t) == CountTeam(log, t) + if e.team == t then 1 else 0
    ensures forall n :: CountRobot(log + [e], n) == CountRobot(log, n) + if e.robot == n then 1 else 0
  {
    assert (log + [e])[..|log|] == log;
  }

  /** The tick only appends to the log, on success and on failure alike. */
  lemma {:induction false} LogTickAppendOnly(b: Books, names: seq<string>, teams: map<string, string>, distance: string -> real)
    ensures |b.log| <= |LogTick(b, names, teams, distance).books.log|
    ensures LogTick(b, names, teams, distance).books.log[..|b.log|] == b.log
    ensures LogTick(b, names, teams, distance).books.customData.Keys == b.customData.Keys
  {
    if names != [] {
      LogTickAppendOnly(b, names[..|names| - 1], teams, distance);
    }
  }

  /**
    The tick fails exactly when some robot on the roster cannot be looked up;
    then it names the first such robot and keeps the effects of the robots before it.
   */
  lemma LogTickMissing(b: Books, names: seq<string>, teams: map<string, string>, distance: string -> real)
    ensures LogTick(b, names, teams, distance).missing.None? <==> forall n :: n in names ==> n in b.customData
    ensures LogTick(b, names, teams, distance).missing.Some? ==>
      exists k :: 0 <= k < |names| && names[k] !in b.customData &&
        (forall j :: 0 <= j < k ==> names[j] in b.customData) &&
        LogTick(b, names, teams, distance) == Tick(LogTick(b, names[..k], teams, distance).books, Some(names[k]))
  {
    MissingIff(b, names, teams, distance);
    if LogTick(b, names, teams, distance).missing.Some? {
      MissingFirst(b, names, teams, distance);
    }
  }

  lemma {:induction false} MissingIff(b: Books, names: seq<string>, teams: map<string, string>, distance: string -> real)
    ensures LogTick(b, names, teams, distance).missing.None? <==> forall n :: n in names ==> n in b.customData
  {
    if names != [] {
      var n := |names| - 1;
      var init, name := names[..n], names[n];
      MissingIff(b, init, teams, distance);
      assert names == init + [name];
      var before := LogTick(b, init, teams, distance);
      if before.missing.Some? {
        var w :| w in init && w !in b.customData;
        assert w in names;
        assert LogTick(b, names, teams, distance) == before;
      } else {
        LogTickAppendOnly(b, init, teams, distance);
        assert name in before.books.customData <==> name in b.customData;
        assert (forall m :: m in names ==> m in b.customData) <==> name in b.customData;
      }
    }
  }

  lemma {:induction false} MissingFirst(b: Books, names: seq<string>, teams: map<string, string>, distance: string -> real)
    requires LogTick(b, names, teams, distance).missing.Some?
    ensures exists k ::
      0 <= k < |names| && names[k] !in b.customData &&
      (forall j :: 0 <= j < k ==> names[j] in b.customData) &&
      LogTick(b, names, teams, distance) == Tick(LogTick(b, names[..k], teams, distance).books, Some(names[k]))
  {
    var n := |names| - 1;
    var init := names[..n];
    var before := LogTick(b, init, teams, distance);
    if before.missing.Some? {
      MissingFirst(b, init, teams, distance);
      var k :| 0 <= k < |init| && init[k] !in b.customData &&
        (forall j :: 0 <= j < k ==> init[j] in b.customData) &&
        before == Tick(LogTick(b, init[..k], teams, distance).books, Some(init[k]));
      assert init[..k] == names[..k];
      assert LogTick(b, names, teams, distance) == before;
      assert forall j :: 0 <= j < k ==> names[j] == init[j];
      assert names[k] !in b.customData;
    } else {
      MissingIff(b, init, teams, distance);
      LogTickAppendOnly(b, init, teams, distance);
      assert names[n] !in b.customData;
      assert LogTick(b, names, teams, distance) == Tick(LogTick(b, names[..n], teams, distance).books, Some(names[n]));
      assert forall j :: 0 <= j < n ==> names[j] == init[j] && init[j] in init;
    }
  }

  /**
    After a tick that succeeds, a robot's flag is "not_collected" when it
    qualified and is unchanged otherwise.
   */
  lemma {:induction false} LogTickFlags(b: Books, names: seq<string>, teams: map<string, string>, distance: string -> real)
    requires LogTick(b, names, teams, distance).missing.None?
    ensures LogTick(b, names, teams, distance).books.customData.Keys == b.customData.Keys
    ensures forall n :: n in b.customData ==>
      LogTick(b, names, teams, distance).books.customData[n] ==
        if Qualifies(b, names, n, distance) then NotCollected else b.customData[n]
  {
    LogTickAppendOnly(b, names, teams, distance);
    if names != [] {
      var k := |names| - 1;
      var init, name := names[..k], names[k];
      var before := LogTick(b, init, teams, distance);
      assert before.missing.None?;
      LogTickFlags(b, init, teams, distance);
      assert names == init + [name];
      var mid := before.books;
      assert name in mid.customData;
      var after := Visit(mid, name, teams, distance).books;
      assert LogTick(b, names, teams, distance).books == after;
      FlagsStep(b, init, name, mid, after, distance);
    }
  }

  /** One more visit keeps the flags as the longer roster's qualification says. */
  lemma FlagsStep(b: Books, init: seq<string>, name: string, mid: Books, after: Books, distance: string -> real)
    requires mid.customData.Keys == b.customData.Keys
    requires forall n :: n in b.customData ==>
      mid.customData[n] == if Qualifies(b, init, n, distance) then NotCollected else b.customData[n]
    requires name in mid.customData
    requires after.customData ==
      if distance(name) <= HomeRadius && mid.customData[name] == Collected then mid.customData[name := NotCollected]
      else mid.customData
    ensures after.customData.Keys == b.customData.Keys
    ensures forall n :: n in b.customData ==>
      after.customData[n] == if Qualifies(b, init + [name], n, distance) then NotCollected else b.customData[n]
  {
    forall n | n in b.customData
      ensures after.customData[n] == if Qualifies(b, init + [name], n, distance) then NotCollected else b.customData[n]
    {
      if n == name && !Qualifies(b, init, n, distance) {
        assert mid.customData[n] == b.customData[n];
      }
    }
  }

  /** The entries a tick appends to the log. */
  function Appended(b: Books, names: seq<string>, teams: map<string, string>, distance: string -> real): seq<LogEntry> {
    LogTickAppendOnly(b, names, teams, distance);
    LogTick(b, names, teams, distance).books.log[|b.log|..]
  }

  /** A visit appends one entry, for the robot's team and holding the incremented count, exactly when it clears a flag. */
  lemma VisitAppends(b: Books, name: string, teams: map<string, string>, distance: string -> real)
    ensures var after := Visit(b, name, teams, distance).books;
      if name in b.customData && distance(name) <= HomeRadius && b.customData[name] == Collected then
        after.log == b.log + [LogEntry(name, TeamOf(teams, name), Get(b.counter, TeamOf(teams, name)) + 1)] &&
        after.counter == Inc(b.counter, TeamOf(teams, name))
      else after == b
  {
  }

  /** The entries of a longer roster are those of its prefix followed by those of the last visit. */
  lemma AppendedStep(b: Books, names: seq<string>, teams: map<string, string>, distance: string -> real)
    requires names != []
    requires LogTick(b, names[..|names| - 1], teams, distance).missing.None?
    ensures var mid := LogTick(b, names[..|names| - 1], teams, distance).books;
      var last := Visit(mid, names[|names| - 1], teams, distance).books;
      |mid.log| <= |last.log| &&
      Appended(b, names, teams, distance) == Appended(b, names[..|names| - 1], teams, distance) + last.log[|mid.log|..]
  {
    var k := |names| - 1;
    var mid := LogTick(b, names[..k], teams, distance).books;
    LogTickAppendOnly(b, names[..k], teams, distance);
    VisitAppends(mid, names[k], teams, distance);
  }

  /** Robot `n` has exactly one new entry if it qualifies for the roster and none otherwise. */
  ghost predicate OneEntryPerTrip(b: Books, names: seq<string>, teams: map<string, string>, distance: string -> real) {
    forall n :: CountRobot(Appended(b, names, teams, distance), n) == if Qualifies(b, names, n, distance) then 1 else 0
  }

  /**
    After a tick that succeeds, the appended entries hold exactly one entry per
    qualifying robot and none for any other robot.
   */
  lemma {:induction false} LogTickOneEntryPerTrip(b: Books, names: seq<string>, teams: map<string, string>, distance: string -> real)
    requires LogTick(b, names, teams, distance).missing.None?
    ensures OneEntryPerTrip(b, names, teams, distance)
  {
    if names == [] {
      assert Appended(b, names, teams, distance) == [];
    } else {
      var k := |names| - 1;
      LogTickOneEntryPerTrip(b, names[..k], teams, distance);
      LogTickFlags(b, names[..k], teams, distance);
      AppendedStep(b, names, teams, distance);
      var mid := LogTick(b, names[..k], teams, distance).books;
      VisitAppends(mid, names[k], teams, distance);
      if Visit(mid, names[k], teams, distance).books == mid {
        OneEntrySkip(b, names, teams, distance);
      } else {
        OneEntryAppend(b, names, teams, distance);
      }
    }
  }

  lemma OneEntrySkip(b: Books, names: seq<string>, teams: map<string, string>, distance: string -> real)
    requires names != []
    requires LogTick(b, names[..|names| - 1], teams, distance).missing.None?
    requires OneEntryPerTrip(b, names[..|names| - 1], teams, distance)
    requires Appended(b, names, teams, distance) == Appended(b, names[..|names| - 1], teams, distance)
    requires var mid := LogTick(b, names[..|names| - 1], teams, distance).books;
      var name := names[|names| - 1];
      name in mid.customData && !(distance(name) <= HomeRadius && mid.customData[name] == Collected)
    requires LogTick(b, names[..|names| - 1], teams, distance).books.customData.Keys == b.customData.Keys
    requires var mid := LogTick(b, names[..|names| - 1], teams, distance).books;
      forall n :: n in b.customData ==>
        mid.customData[n] == if Qualifies(b, names[..|names| - 1], n, distance) then NotCollected else b.customData[n]
    ensures OneEntryPerTrip(b, names, teams, distance)
  {
    var k := |names| - 1;
    var init, name := names[..k], names[k];
    assert names == init + [name];
    var mid := LogTick(b, init, teams, distance).books;
    assert !Qualifies(b, init, name, distance) ==> !Qualifies(b, names, name, distance) by {
      if !Qualifies(b, init, name, distance) && name in b.customData {
        assert mid.customData[name] == b.customData[name];
      }
    }
    QualifiesSkip(b, init, name, distance);
  }

  /** A visit that appends nothing leaves every robot's qualification as it was. */
  lemma QualifiesSkip(b: Books, init: seq<string>, name: string, distance: string -> real)
    requires !Qualifies(b, init, name, distance) ==> !Qualifies(b, init + [name], name, distance)
    ensures forall n :: Qualifies(b, init + [name], n, distance) == Qualifies(b, init, n, distance)
  {
  }

  lemma OneEntryAppend(b: Books, names: seq<string>, teams: map<string, string>, distance: string -> real)
    requires names != []
    requires LogTick(b, names[..|names| - 1], teams, distance).missing.None?
    requires OneEntryPerTrip(b, names[..|names| - 1], teams, distance)
    requires var mid := LogTick(b, names[..|names| - 1], teams, distance).books;
      var name := names[|names| - 1];
      exists e: LogEntry :: e.robot == name &&
        Appended(b, names, teams, distance) == Appended(b, names[..|names| - 1], teams, distance) + [e]
    requires var mid := LogTick(b, names[..|names| - 1], teams, distance).books;
      var name := names[|names| - 1];
      name in mid.customData && mid.customData[name] == Collected && distance(name) <= HomeRadius
    requires LogTick(b, names[..|names| - 1], teams, distance).books.customData.Keys == b.customData.Keys
    requires var mid := LogTick(b, names[..|names| - 1], teams, distance).books;
      forall n :: n in b.customData ==>
        mid.customData[n] == if Qualifies(b, names[..|names| - 1], n, distance) then NotCollected else b.customData[n]
    ensures OneEntryPerTrip(b, names, teams, distance)
  {
    var k := |names| - 1;
    var init, name := names[..k], names[k];
    assert names == init + [name];
    var mid := LogTick(b, init, teams, distance).books;
    var e: LogEntry :| e.robot == name && Appended(b, names, teams, distance) == Appended(b, init, teams, distance) + [e];
    assert !Qualifies(b, init, name, distance) by {
      assert name in b.customData;
    }
    assert mid.customData[name] == b.customData[name];
    CountNewEntry(Appended(b, init, teams, distance), e, b, init, distance);
  }

  /** Appending the entry of a robot that newly qualifies keeps one entry per qualifying robot. */
  lemma CountNewEntry(before: seq<LogEntry>, e: LogEntry, b: Books, init: seq<string>, distance: string -> real)
    requires forall n :: CountRobot(before, n) == if Qualifies(b, init, n, distance) then 1 else 0
    requires Qualifies(b, init + [e.robot], e.robot, distance) && !Qualifies(b, init, e.robot, distance)
    ensures forall n :: CountRobot(before + [e], n) == if Qualifies(b, init + [e.robot], n, distance) then 1 else 0
  {
    CountAppend(before, e);
  }

  /** Every entry a tick appends is for its robot's team, on success and failure alike. */
  lemma {:induction false} LogTickTeams(b: Books, names: seq<string>, teams: map<string, string>, distance: string -> real)
    ensures forall i :: 0 <= i < |Appended(b, names, teams, distance)| ==>
      Appended(b, names, teams, distance)[i].team == TeamOf(teams, Appended(b, names, teams, distance)[i].robot)
  {
    if names == [] {
      assert Appended(b, names, teams, distance) == [];
    } else {
      var k := |names| - 1;
      LogTickTeams(b, names[..k], teams, distance);
      var mid := LogTick(b, names[..k], teams, distance);
      if mid.missing.None? {
        AppendedStep(b, names, teams, distance);
        VisitAppends(mid.books, names[k], teams, distance);
      } else {
        assert Appended(b, names, teams, distance) == Appended(b, names[..k], teams, distance);
      }
    }
  }

  /** Each team counter grows by exactly that team's number of new entries, on success and failure alike. */
  lemma {:induction false} LogTickCounters(b: Books, names: seq<string>, teams: map<string, string>, distance: string -> real)
    ensures forall t ::
      Get(LogTick(b, names, teams, distance).books.counter, t) == Get(b.counter, t) + CountTeam(Appended(b, names, teams, distance), t)
  {
    if names == [] {
      assert Appended(b, names, teams, distance) == [];
    } else {
      var k := |names| - 1;
      LogTickCounters(b, names[..k], teams, distance);
      var mid := LogTick(b, names[..k], teams, distance);
      if mid.missing.None? {
        AppendedStep(b, names, teams, distance);
        VisitAppends(mid.books, names[k], teams, distance);
        var before := Appended(b, names[..k], teams, distance);
        if Visit(mid.books, names[k], teams, distance).books != mid.books {
          var team := TeamOf(teams, names[k]);
          var e := LogEntry(names[k], team, Get(mid.books.counter, team) + 1);
          assert Appended(b, names, teams, distance) == before + [e];
          CountersAppend(b.counter, mid.books.counter, before, e);
        } else {
          assert Appended(b, names, teams, distance) == before;
        }
      } else {
        assert Appended(b, names, teams, distance) == Appended(b, names[..k], teams, distance);
      }
    }
  }

  /** Incrementing the counter for one more entry keeps it equal to the start plus the entries' counts. */
  lemma CountersAppend(start: map<string, nat>, counter: map<string, nat>, entries: seq<LogEntry>, e: LogEntry)
    requires forall t :: Get(counter, t) == Get(start, t) + CountTeam(entries, t)
    ensures forall t :: Get(Inc(counter, e.team), t) == Get(start, t) + CountTeam(entries + [e], t)
  {
    CountAppend(entries, e);
  }

  /** The robots of a log's entries, in log order. */
  function Robots(log: seq<LogEntry>): (robots: seq<string>)
    ensures |robots| == |log|
    ensures forall i :: 0 <= i < |log| ==> robots[i] == log[i].robot
  {
    seq(|log|, i requires 0 <= i < |log| => log[i].robot)
  }

  /**
    The roster filtered to the first occurrence of each robot that is home with
    its flag raised when the tick starts, in roster order.
   */
  function Trips(b: Books, names: seq<string>, distance: string -> real): seq<string> {
    if names == [] then []
    else
      var n := |names| - 1;
      var name := names[n];
      Trips(b, names[..n], distance) + if name !in names[..n] && Qualifies(b, names, name, distance) then [name] else []
  }

  /** The first place of robot `n` on the roster. */
  function FirstIndex(names: seq<string>, n: string): (k: nat)
    requires n in names
    ensures k < |names| && names[k] == n
    ensures forall j :: 0 <= j < k ==> names[j] != n
  {
    if names[0] == n then 0 else 1 + FirstIndex(names[1..], n)
  }

  /** A successful tick appends one entry per trip, in the roster order of the trips. */
  lemma {:induction false} LogTickOrder(b: Books, names: seq<string>, teams: map<string, string>, distance: string -> real)
    requires LogTick(b, names, teams, distance).missing.None?
    ensures Robots(Appended(b, names, teams, distance)) == Trips(b, names, distance)
  {
    if names == [] {
      assert Appended(b, names, teams, distance) == [];
    } else {
      var k := |names| - 1;
      var name := names[k];
      LogTickOrder(b, names[..k], teams, distance);
      LogTickFlags(b, names[..k], teams, distance);
      var mid := LogTick(b, names[..k], teams, distance).books;
      assert name in mid.customData && name in b.customData;
      TripStep(b, names, mid, distance);
      AppendedVisit(b, names, teams, distance);
      var appends := distance(name) <= HomeRadius && mid.customData[name] == Collected;
      var team := TeamOf(teams, name);
      RobotsStep(Appended(b, names[..k], teams, distance), LogEntry(name, team, Get(mid.counter, team) + 1), appends);
    }
  }

  /** The entries of a longer roster are those of its prefix, followed by one entry when the last robot is home and flagged. */
  lemma AppendedVisit(b: Books, names: seq<string>, teams: map<string, string>, distance: string -> real)
    requires names != []
    requires LogTick(b, names[..|names| - 1], teams, distance).missing.None?
    requires names[|names| - 1] in LogTick(b, names[..|names| - 1], teams, distance).books.customData
    ensures var mid := LogTick(b, names[..|names| - 1], teams, distance).books;
      var name := names[|names| - 1];
      var team := TeamOf(teams, name);
      Appended(b, names, teams, distance) == Appended(b, names[..|names| - 1], teams, distance) +
        if distance(name) <= HomeRadius && mid.customData[name] == Collected then [LogEntry(name, team, Get(mid.counter, team) + 1)] else []
  {
    var k := |names| - 1;
    AppendedStep(b, names, teams, distance);
    VisitAppends(LogTick(b, names[..k], teams, distance).books, names[k], teams, distance);
  }

  /** The robots of a log grow by the robot of the entry appended to it, if any. */
  lemma RobotsStep(before: seq<LogEntry>, e: LogEntry, appends: bool)
    ensures Robots(before + if appends then [e] else []) == Robots(before) + if appends then [e.robot] else []
  {
    if !appends {
      assert before + [] == before;
    }
  }

  /**
    The last robot on the roster is a new trip exactly when the visits before it
    have left its flag raised and it is home.
   */
  lemma TripStep(b: Books, names: seq<string>, mid: Books, distance: string -> real)
    requires names != []
    requires var name := names[|names| - 1];
      name in b.customData && name in mid.customData &&
      mid.customData[name] == if Qualifies(b, names[..|names| - 1], name, distance) then NotCollected else b.customData[name]
    ensures var name := names[|names| - 1];
      Trips(b, names, distance) == Trips(b, names[..|names| - 1], distance) +
        if distance(name) <= HomeRadius && mid.customData[name] == Collected then [name] else []
  {
    var k := |names| - 1;
    var init, name := names[..k], names[k];
    assert name in names;
    var home := distance(name) <= HomeRadius && b.customData[name] == Collected;
    assert Qualifies(b, names, name, distance) == home;
    assert Qualifies(b, init, name, distance) == (name in init && home);
    if name in init && home {
      assert mid.customData[name] == NotCollected;
      assert NotCollected[0] != Collected[0];
    } else {
      assert mid.customData[name] == b.customData[name];
    }
    var isNew := name !in init && Qualifies(b, names, name, distance);
    assert isNew == (distance(name) <= HomeRadius && mid.customData[name] == Collected);
    assert Trips(b, names, distance) == Trips(b, init, distance) + if isNew then [name] else [];
  }

  /** A robot's first place on a roster does not move when the roster grows at the end. */
  lemma FirstIndexPrefix(init: seq<string>, name: string, n: string)
    requires n in init
    ensures FirstIndex(init + [name], n) == FirstIndex(init, n)
  {
    var longer := init + [name];
    var a, c := FirstIndex(longer, n), FirstIndex(init, n);
    assert longer[c] == init[c];
  }

  /** The trips are robots of the roster, each listed before every robot that first appears later on it. */
  lemma {:induction false} TripsInRosterOrder(b: Books, names: seq<string>, distance: string -> real)
    ensures forall i :: 0 <= i < |Trips(b, names, distance)| ==> Trips(b, names, distance)[i] in names
    ensures forall i, j :: 0 <= i < j < |Trips(b, names, distance)| ==>
      FirstIndex(names, Trips(b, names, distance)[i]) < FirstIndex(names, Trips(b, names, distance)[j])
  {
    if names != [] {
      var k := |names| - 1;
      var init, name := names[..k], names[k];
      assert names == init + [name];
      TripsInRosterOrder(b, init, distance);
      var before := Trips(b, init, distance);
      var trips := Trips(b, names, distance);
      forall i | 0 <= i < |before| ensures FirstIndex(names, before[i]) == FirstIndex(init, before[i]) < k {
        FirstIndexPrefix(init, name, before[i]);
      }
      if trips != before {
        assert trips == before + [name] && name !in init;
        assert forall j :: 0 <= j < k ==> names[j] == init[j];
      }
    }
  }

  /**
    The entries a successful tick appends follow the roster: an earlier entry's
    robot first appears on the roster before a later entry's robot.
   */
  lemma LogTickRosterOrder(b: Books, names: seq<string>, teams: map<string, string>, distance: string -> real)
    requires LogTick(b, names, teams, distance).missing.None?
    ensures forall i :: 0 <= i < |Appended(b, names, teams, distance)| ==> Appended(b, names, teams, distance)[i].robot in names
    ensures forall i, j :: 0 <= i < j < |Appended(b, names, teams, distance)| ==>
      FirstIndex(names, Appended(b, names, teams, distance)[i].robot) <
        FirstIndex(names, Appended(b, names, teams, distance)[j].robot)
  {
    LogTickOrder(b, names, teams, distance);
    TripsInRosterOrder(b, names, distance);
    var appended := Appended(b, names, teams, distance);
    assert forall i :: 0 <= i < |appended| ==> appended[i].robot == Trips(b, names, distance)[i];
  }

  /** While no rostered robot is home with its flag raised, a tick changes nothing. */
  lemma {:induction false} LogTickNoop(b: Books, names: seq<string>, teams: map<string, string>, distance: string -> real)
    requires forall n :: n in names ==> n in b.customData && !(distance(n) <= HomeRadius && b.customData[n] == Collected)
    ensures LogTick(b, names, teams, distance) == Tick(b, None)
  {
    if names != [] {
      LogTickNoop(b, names[..|names| - 1], teams, distance);
    }
  }

  /** With the same positions, a second tick after a successful one appends nothing and changes nothing. */
  lemma LogTickIdempotent(b: Books, names: seq<string>, teams: map<string, string>, distance: string -> real)
    requires LogTick(b, names, teams, distance).missing.None?
    ensures var after := LogTick(b, names, teams, distance).books;
      LogTick(after, names, teams, distance) == Tick(after, None)
  {
    var after := LogTick(b, names, teams, distance).books;
    LogTickMissing(b, names, teams, distance);
    LogTickFlags(b, names, teams, distance);
    LogTickNoop(after, names, teams, distance);
  }

  /** A tick keeps the counter equal to the replayed log and the log numbered per team. */
  lemma {:induction false} LogTickConsistent(b: Books, names: seq<string>, teams: map<string, string>, distance: string -> real)
    requires Consistent(b)
    ensures Consistent(LogTick(b, names, teams, distance).books)
  {
    if names != [] {
      var k := |names| - 1;
      var mid := LogTick(b, names[..k], teams, distance);
      LogTickConsistent(b, names[..k], teams, distance);
      if mid.missing.None? {
        VisitConsistent(mid.books, names[k], teams, distance);
      }
    }
  }

  lemma VisitConsistent(b: Books, name: string, teams: map<string, string>, distance: string -> real)
    requires Consistent(b)
    ensures Consistent(Visit(b, name, teams, distance).books)
  {
    var after := Visit(b, name, teams, distance).books;
    if after != b {
      var e := after.log[|after.log| - 1];
      assert after.log == b.log + [e];
      CountAppend(b.log, e);
      forall i | 0 <= i < |after.log|
        ensures after.log[i].collected == CountTeam(after.log[..i + 1], after.log[i].team)
      {
        if i < |b.log| {
          assert after.log[..i + 1] == b.log[..i + 1];
        } else {
          assert after.log[..i + 1] == after.log;
        }
      }
    }
  }

  /** A tick whose team labels are all lower-case logs only lower-case teams. */
  lemma {:induction false} LogTickLowercase(b: Books, names: seq<string>, teams: map<string, string>, distance: string -> real)
    requires LowercaseTeams(b.log)
    requires forall n :: n in teams ==> Lower(teams[n]) == teams[n]
    ensures LowercaseTeams(LogTick(b, names, teams, distance).books.log)
  {
    if names != [] {
      var k := |names| - 1;
      LogTickLowercase(b, names[..k], teams, distance);
      assert Lower(UnknownTeam) == UnknownTeam;
    }
  }

  /** The values a team's entries hold, in log order. */
  function TeamValues(log: seq<LogEntry>, t: string): seq<nat> {
    if log == [] then []
    else
      var last := log[|log| - 1];
      TeamValues(log[..|log| - 1], t) + if last.team == t then [last.collected] else []
  }

  /** The sequence 1, 2, ..., n. */
  function UpTo(n: nat): (s: seq<nat>)
    ensures |s| == n
    ensures forall i :: 0 <= i < n ==> s[i] == i + 1
  {
    if n == 0 then [] else UpTo(n - 1) + [n]
  }

  /** In a numbered log (which every tick keeps from an empty one) each team's entries count 1, 2, 3, ... in order. */
  lemma {:induction false} TeamValuesCountUp(log: seq<LogEntry>, t: string)
    requires Numbered(log)
    ensures TeamValues(log, t) == UpTo(CountTeam(log, t))
  {
    if log != [] {
      var k := |log| - 1;
      var init := log[..k];
      forall i | 0 <= i < |init| ensures init[i].collected == CountTeam(init[..i + 1], init[i].team) {
        assert init[..i + 1] == log[..i + 1];
      }
      TeamValuesCountUp(init, t);
      assert log[..k + 1] == log;
    }
  }

  /** The line `log_collected_resources` writes for an entry, as `json.loads` reads it back. */
  function EntryLine(e: LogEntry): LogLine {
    JsonObject(map["robot" := JStr(e.robot), "team" := JStr(e.team), "resources_collected" := JInt(e.collected)])
  }

  function Lines(log: seq<LogEntry>): (lines: seq<LogLine>)
    ensures |lines| == |log|
    ensures forall i :: 0 <= i < |log| ==> lines[i] == EntryLine(log[i])
  {
    seq(|log|, i requires 0 <= i < |log| => EntryLine(log[i]))
  }

  /** The log file: the supervisor deletes it at start-up and the first append creates it. */
  function LogFile(log: seq<LogEntry>): Option<seq<LogLine>> {
    if log == [] then None else Some(Lines(log))
  }

  lemma EntryLineKind(e: LogEntry)
    requires Lower(e.team) == e.team
    ensures Classify(EntryLine(e)) == if e.team == "" then Skip else Counted(e.team)
  {
    var fields := map["robot" := JStr(e.robot), "team" := JStr(e.team), "resources_collected" := JInt(e.collected)];
    assert "team" in fields && fields["team"] == JStr(e.team);
  }

  lemma {:induction false} LinesOccurrences(log: seq<LogEntry>, t: string)
    requires LowercaseTeams(log)
    requires t != ""
    ensures Occurrences(Lines(log), t) == CountTeam(log, t)
    ensures forall i :: 0 <= i < |log| ==> Classify(Lines(log)[i]) != Crash
  {
    if log != [] {
      var k := |log| - 1;
      var init := log[..k];
      assert LowercaseTeams(init);
      LinesOccurrences(init, t);
      assert Lines(log) == Lines(init) + [EntryLine(log[k])];
      OccurrencesAppend(Lines(init), [EntryLine(log[k])], t);
      OccurrencesOne(EntryLine(log[k]), t);
      EntryLineKind(log[k]);
      forall i | 0 <= i < |log| ensures Classify(Lines(log)[i]) != Crash {
        EntryLineKind(log[i]);
      }
    }
  }

  /**
    Replay equals accumulate: reading back the log the supervisor has written
    gives, for every non-empty team label, exactly the supervisor's counter.
   */
  lemma ReplayEqualsCounter(b: Books)
    requires Consistent(b)
    requires LowercaseTeams(b.log)
    ensures ReadScores(LogFile(b.log)).Success?
    ensures forall t :: t != "" ==> Get(ReadScores(LogFile(b.log)).value, t) == Get(b.counter, t)
  {
    if b.log != [] {
      var lines := Lines(b.log);
      LinesOccurrences(b.log, "unknown");
      TallyFailsAtFirstCrash(lines);
      TallyCounts(lines);
      forall t | t != "" ensures Get(Tally(lines).value, t) == Get(b.counter, t) {
        LinesOccurrences(b.log, t);
      }
    }
  }

  /**
    The replay agrees with the counter only on non-empty teams: a robot whose
    label is blank is counted and logged under "", but reading the log back
    skips that line.
   */
  lemma BlankTeamNotReplayed(name: string, distance: string -> real)
    requires distance(name) <= HomeRadius
    ensures var after := LogTick(Books(map[name := Collected], map[], []), [name], map[name := ""], distance).books;
      Get(after.counter, "") == 1 && ReadScores(LogFile(after.log)) == Success(map[])
  {
    var b := Books(map[name := Collected], map[], []);
    var teams := map[name := ""];
    assert [name][..0] == [];
    assert LogTick(b, [name], teams, distance) == Visit(b, name, teams, distance);
    assert TeamOf(teams, name) == "" && Get(b.counter, "") == 0;
    var after := LogTick(b, [name], teams, distance).books;
    assert after.counter == map["" := 1];
    assert after.log == [LogEntry(name, "", 1)];
    var lines := Lines(after.log);
    assert lines == [EntryLine(after.log[0])];
    EntryLineKind(after.log[0]);
    assert lines[..0] == [];
    assert Tally(lines) == Success(map[]);
  }

  /** The books at start-up: the log file deleted and the counter empty. */
  lemma InitialConsistent(customData: map<string, string>)
    ensures Consistent(Books(customData, map[], []))
    ensures LowercaseTeams([])
  {
  }
}
