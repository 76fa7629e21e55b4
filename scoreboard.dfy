/**
  The scoreboard replay: the collection log is read line by line and the lines
  naming a team are counted per lower-cased team label.
 */
module Scoreboard {
  import opened Wrappers
  import opened Text

  /** The JSON values a log line's fields can hold, as far as the replay tells them apart. */
  datatype Json = JStr(s: string) | JInt(n: int) | JOther

  /**
    One line of the log file after `json.loads`: a line that does not parse, a
    JSON object, or some other JSON value (an array, a number, a string, null).
   */
  datatype LogLine = Malformed | JsonObject(fields: map<string, Json>) | JsonOther

  /** What the replay does with one line: skip it, count it for a team, or stop with an uncaught error. */
  datatype LineKind = Skip | Counted(team: string) | Crash

  /**
    A line that does not parse is skipped, and so is an object whose team is
    missing or empty. A value that is not an object, or a team that is not a
    string, makes `.get` or `.lower()` raise, which the scan does not catch.
   */
  function Classify(line: LogLine): (k: LineKind)
    ensures k.Counted? ==> k.team != "" && Lower(k.team) == k.team
  {
    match line
    case Malformed => Skip
    case JsonOther => Crash
    case JsonObject(fields) =>
      var team := if "team" in fields then fields["team"] else JStr("");
      match team
      case JStr(s) =>
        LowerIdempotent(s);
        if Lower(s) == "" then Skip else Counted(Lower(s))
      case _ => Crash
  }

  /** A Python `Counter` read at key `k`: absent keys count zero. */
  function Get(counter: map<string, nat>, k: string): nat {
    if k in counter then counter[k] else 0
  }

  function Inc(counter: map<string, nat>, k: string): (r: map<string, nat>)
    ensures Get(r, k) == Get(counter, k) + 1
    ensures forall t :: t != k ==> Get(r, t) == Get(counter, t)
    ensures r.Keys == counter.Keys + {k}
  {
    counter[k := Get(counter, k) + 1]
  }

  /** The replay of a sequence of lines; a crash reports the index of the line that raised. */
  function Tally(lines: seq<LogLine>): Result<map<string, nat>, nat> {
    if lines == [] then Success(map[])
    else
      var n := |lines| - 1;
      match Tally(lines[..n])
      case Failure(i) => Failure(i)
      case Success(counter) =>
        match Classify(lines[n])
        case Skip => Success(counter)
        case Counted(t) => Success(Inc(counter, t))
        case Crash => Failure(n)
  }

  /** `read_team_scores`: a log file that does not exist yields an empty tally. */
  function ReadScores(file: Option<seq<LogLine>>): Result<map<string, nat>, nat> {
    match file
    case None => Success(map[])
    case Some(lines) => Tally(lines)
  }

  /** The number of lines counted for team `t`: the reference the replay is proved against. */
  function Occurrences(lines: seq<LogLine>, t: string): nat {
    if lines == [] then 0
    else (if Classify(lines[0]) == Counted(t) then 1 else 0) + Occurrences(lines[1..], t)
  }

  lemma {:induction false} OccurrencesAppend(a: seq<LogLine>, b: seq<LogLine>, t: string)
    ensures Occurrences(a + b, t) == Occurrences(a, t) + Occurrences(b, t)
  {
    if a != [] {
      assert (a + b)[1..] == a[1..] + b;
      OccurrencesAppend(a[1..], b, t);
    } else {
      assert a + b == b;
    }
  }

  /**
    A replay that does not crash counts, for every team, exactly the lines that
    name it, and holds no other key; in particular no team is the empty string.
   */
  lemma {:induction false} TallyCounts(lines: seq<LogLine>)
    requires Tally(lines).Success?
    ensures forall t :: Get(Tally(lines).value, t) == Occurrences(lines, t)
    ensures forall t :: t in Tally(lines).value <==> Occurrences(lines, t) > 0
    ensures "" !in Tally(lines).value
  {
    if lines != [] {
      var n := |lines| - 1;
      assert lines == lines[..n] + [lines[n]];
      TallyCounts(lines[..n]);
      var before, after := Tally(lines[..n]).value, Tally(lines).value;
      var kind := Classify(lines[n]);
      if kind.Counted? {
        assert after == Inc(before, kind.team);
      } else {
        assert after == before;
      }
      forall t
        ensures Get(after, t) == Occurrences(lines, t)
        ensures t in after <==> Occurrences(lines, t) > 0
      {
        OccurrencesAppend(lines[..n], [lines[n]], t);
        OccurrencesOne(lines[n], t);
      }
    }
  }

  lemma OccurrencesOne(line: LogLine, t: string)
    ensures Occurrences([line], t) == if Classify(line) == Counted(t) then 1 else 0
  {
    assert [line][1..] == [];
  }

  /** The replay raises exactly when some line raises, and it reports the first such line. */
  lemma {:induction false} TallyFailsAtFirstCrash(lines: seq<LogLine>)
    ensures Tally(lines).Success? <==> forall i :: 0 <= i < |lines| ==> Classify(lines[i]) != Crash
    ensures Tally(lines).Failure? ==>
      var k := Tally(lines).error;
      k < |lines| && Classify(lines[k]) == Crash && forall i :: 0 <= i < k ==> Classify(lines[i]) != Crash
  {
    if lines != [] {
      var n := |lines| - 1;
      TallyFailsAtFirstCrash(lines[..n]);
      assert forall i :: 0 <= i < n ==> lines[..n][i] == lines[i];
    }
  }

  /**
    An object whose team is missing or empty is skipped, and only then is an
    object skipped: such a line does not stop the scan.
   */
  lemma MissingOrEmptyTeamSkips(fields: map<string, Json>)
    ensures Classify(JsonObject(fields)) == Skip <==> "team" !in fields || fields["team"] == JStr("")
  {
    if "team" in fields && fields["team"].JStr? {
      var s := fields["team"].s;
      assert |Lower(s)| == |s|;
    }
  }

  /**
    A skipped line (one that does not parse, or an object with a missing or
    empty team) between two parts of the log changes neither whether the replay
    succeeds nor any total.
   */
  lemma SkipLineIgnored(a: seq<LogLine>, line: LogLine, b: seq<LogLine>)
    requires Classify(line) == Skip
    ensures Tally(a + [line] + b).Success? <==> Tally(a + b).Success?
    ensures Tally(a + b).Success? ==> Tally(a + [line] + b).value == Tally(a + b).value
  {
    var with, without := a + [line] + b, a + b;
    TallyFailsAtFirstCrash(with);
    TallyFailsAtFirstCrash(without);
    if Tally(without).Success? {
      forall i | 0 <= i < |with| ensures Classify(with[i]) != Crash {
        if i < |a| {
          assert with[i] == without[i];
        } else if i > |a| {
          assert with[i] == without[i - 1];
        }
      }
      TallyCounts(with);
      TallyCounts(without);
      forall t ensures Occurrences(with, t) == Occurrences(without, t) {
        OccurrencesAppend(a + [line], b, t);
        OccurrencesAppend(a, [line], t);
        OccurrencesAppend(a, b, t);
        OccurrencesOne(line, t);
      }
      var m1, m2 := Tally(with).value, Tally(without).value;
      assert forall t :: t in m1 <==> t in m2;
      assert forall t :: t in m1 ==> m1[t] == Get(m1, t) == Get(m2, t) == m2[t];
    } else {
      var k := Tally(without).error;
      if k < |a| {
        assert with[k] == without[k];
      } else {
        assert with[k + 1] == without[k];
      }
    }
  }

  /** Once a prefix of the log has raised, the whole replay raises at the same line. */
  lemma {:induction false} TallyFailureSticks(lines: seq<LogLine>, k: nat)
    requires k <= |lines| && Tally(lines[..k]).Failure?
    ensures Tally(lines) == Tally(lines[..k])
  {
    if k < |lines| {
      var n := |lines| - 1;
      assert lines[..n][..k] == lines[..k];
      TallyFailureSticks(lines[..n], k);
    } else {
      assert lines[..k] == lines;
    }
  }

  /** `read_team_scores`, a loop that accumulates into a counter. */
  method ReadTeamScores(file: Option<seq<LogLine>>) returns (scores: Result<map<string, nat>, nat>)
    ensures scores == ReadScores(file)
  {
    if file.None? {
      return Success(map[]);
    }
    var lines := file.value;
    var counter: map<string, nat> := map[];
    for i := 0 to |lines|
      invariant Tally(lines[..i]) == Success(counter)
    {
      assert lines[..i + 1][..i] == lines[..i];
      match Classify(lines[i])
      case Skip =>
      case Counted(t) =>
        counter := Inc(counter, t);
      case Crash =>
        TallyFailureSticks(lines, i + 1);
        return Failure(i);
    }
    assert lines[..|lines|] == lines;
    return Success(counter);
  }
}
