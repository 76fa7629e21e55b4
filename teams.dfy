/**
  How the supervisor attributes robots to teams: the colour classifier and the
  roster scan that reads each Rosbot's team label from its controller argument.
 */
module Teams {
  import opened Text

  const DefaultTolerance: real := 0.1

  /** A colour as the three components the classifier unpacks. */
  datatype Rgb = Rgb(r: real, g: real, b: real)

  /** Component `x` beats both others by at least `tolerance`. */
  predicate Dominates(x: real, y: real, z: real, tolerance: real) {
    x >= y + tolerance && x >= z + tolerance
  }

  /**
    The team a colour stands for: red, then green, then blue are tested in that
    order, and a colour none of them dominates is "unknown".
   */
  function TeamFromColor(c: Rgb, tolerance: real := DefaultTolerance): (team: string)
    ensures team == "red" || team == "green" || team == "blue" || team == "unknown"
    ensures team == "red" <==> Dominates(c.r, c.g, c.b, tolerance)
    ensures team == "green" <==> !Dominates(c.r, c.g, c.b, tolerance) && Dominates(c.g, c.r, c.b, tolerance)
    ensures team == "blue" <==>
      !Dominates(c.r, c.g, c.b, tolerance) && !Dominates(c.g, c.r, c.b, tolerance) && Dominates(c.b, c.r, c.g, tolerance)
  {
    if Dominates(c.r, c.g, c.b, tolerance) then "red"
    else if Dominates(c.g, c.r, c.b, tolerance) then "green"
    else if Dominates(c.b, c.r, c.g, tolerance) then "blue"
    else "unknown"
  }

  /**
    With a positive tolerance at most one component dominates, so each result
    holds exactly when its own test does: the order of the tests is irrelevant.
   */
  lemma TeamFromColorOrderFree(c: Rgb, tolerance: real)
    requires tolerance > 0.0
    ensures !(Dominates(c.r, c.g, c.b, tolerance) && Dominates(c.g, c.r, c.b, tolerance))
    ensures !(Dominates(c.r, c.g, c.b, tolerance) && Dominates(c.b, c.r, c.g, tolerance))
    ensures !(Dominates(c.g, c.r, c.b, tolerance) && Dominates(c.b, c.r, c.g, tolerance))
    ensures TeamFromColor(c, tolerance) == "green" <==> Dominates(c.g, c.r, c.b, tolerance)
    ensures TeamFromColor(c, tolerance) == "blue" <==> Dominates(c.b, c.r, c.g, tolerance)
    ensures TeamFromColor(c, tolerance) == "unknown" <==>
      !Dominates(c.r, c.g, c.b, tolerance) && !Dominates(c.g, c.r, c.b, tolerance) && !Dominates(c.b, c.r, c.g, tolerance)
  {
  }

  /** With a zero tolerance a grey colour is dominated by every component, and red wins only by test order. */
  lemma TeamFromColorOrderMattersAtZero()
    ensures Dominates(0.5, 0.5, 0.5, 0.0)
    ensures TeamFromColor(Rgb(0.5, 0.5, 0.5), 0.0) == "red"
  {
  }

  /** A child of the scene tree: its type name, its `name` field and its first controller argument. */
  datatype WorldChild = WorldChild(typeName: string, name: string, controllerArg: string)

  predicate IsRosbot(c: WorldChild) {
    c.typeName == "Rosbot"
  }

  /** The team label read from a controller argument: stripped and lower-cased. */
  function TeamLabel(controllerArg: string): (team: string)
    ensures IsCanonical(team)
    ensures Lower(team) == team
    ensures IsCanonical(controllerArg) ==> team == controllerArg
  {
    NormalizeCanonical(controllerArg);
    LowerOfLowerCase(Normalize(controllerArg));
    Normalize(controllerArg)
  }

  /** The names of the Rosbot children, in scene order. */
  function RosbotNames(children: seq<WorldChild>): seq<string> {
    if children == [] then []
    else
      var last := children[|children| - 1];
      RosbotNames(children[..|children| - 1]) + if IsRosbot(last) then [last.name] else []
  }

  /** The name-to-team map the scan builds; a later child with the same name overrides an earlier one. */
  function RosbotTeams(children: seq<WorldChild>): map<string, string> {
    if children == [] then map[]
    else
      var last := children[|children| - 1];
      var teams := RosbotTeams(children[..|children| - 1]);
      if IsRosbot(last) then teams[last.name := TeamLabel(last.controllerArg)] else teams
  }

  /** The roster scan run once at start-up. */
  method RegisterRobots(children: seq<WorldChild>) returns (names: seq<string>, teams: map<string, string>)
    ensures names == RosbotNames(children)
    ensures teams == RosbotTeams(children)
  {
    names, teams := [], map[];
    for i := 0 to |children|
      invariant names == RosbotNames(children[..i])
      invariant teams == RosbotTeams(children[..i])
    {
      assert children[..i + 1][..i] == children[..i];
      var child := children[i];
      if IsRosbot(child) {
        names := names + [child.name];
        teams := teams[child.name := TeamLabel(child.controllerArg)];
      }
    }
    assert children[..|children|] == children;
  }

  /** No later Rosbot in `children` carries the name of the Rosbot at index `i`. */
  predicate LastWithItsName(children: seq<WorldChild>, i: nat)
    requires i < |children|
  {
    forall j :: i < j < |children| && IsRosbot(children[j]) ==> children[j].name != children[i].name
  }

  /**
    Every registered name has a team and every team belongs to a registered name;
    each label is canonical and is the label of the last Rosbot with that name.
   */
  lemma {:induction false} RegisteredTeams(children: seq<WorldChild>)
    ensures forall n :: n in RosbotTeams(children) <==> n in RosbotNames(children)
    ensures forall n :: n in RosbotTeams(children) ==> IsCanonical(RosbotTeams(children)[n])
    ensures forall i :: 0 <= i < |children| && IsRosbot(children[i]) ==> children[i].name in RosbotTeams(children)
    ensures forall i :: 0 <= i < |children| && IsRosbot(children[i]) && LastWithItsName(children, i) ==>
              RosbotTeams(children)[children[i].name] == TeamLabel(children[i].controllerArg)
  {
    if children != [] {
      var init := children[..|children| - 1];
      RegisteredTeams(init);
      forall i | 0 <= i < |init| ensures init[i] == children[i] { }
      forall i | 0 <= i < |init| && IsRosbot(init[i]) && LastWithItsName(children, i)
        ensures LastWithItsName(init, i)
      { }
    }
  }
}
