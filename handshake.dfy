/**
  The `customData` handshake between the two controllers: the robot raises and
  reads the flag loosely, the supervisor compares it exactly and clears it.
 */
module Handshake {
  import opened Wrappers
  import Rosbot
  import Bookkeeping

  /**
    A robot whose flag holds " Collected\n" is stranded at home: the
    supervisor's visit neither clears that flag nor logs a trip, and while the
    flag keeps that value the wait at home never ends.
   */
  lemma PaddedFlagStrands(b: Bookkeeping.Books, name: string, teams: map<string, string>, distance: string -> real,
                          c: Rosbot.Controller, obs: seq<Rosbot.Observation>, data: seq<string>)
    requires name in b.customData && b.customData[name] == " Collected\n"
    requires Rosbot.Inv(c) && c.wait.AwaitingClear? && |obs| == |data|
    requires forall i :: 0 <= i < |data| ==> data[i] == b.customData[name]
    ensures Bookkeeping.HasRecollected(b.customData, name) == Success(false)
    ensures Bookkeeping.Visit(b, name, teams, distance) == Bookkeeping.Tick(b, None)
    ensures Rosbot.Run(c, obs, data).state == Rosbot.Returning && Rosbot.Run(c, obs, data).wait == c.wait
  {
    Rosbot.PaddedRaised();
    Rosbot.RaisedFlagHoldsHome(c, obs, data);
  }
}
