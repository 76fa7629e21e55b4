/** The robot's heading-error normalisation, over exact reals. */
module Angles {

  /** `math.pi`, as the decimal Python prints for it. */
  const Pi: real := 3.141592653589793
  const TwoPi: real := 2.0 * Pi

  /** How many full turns the first loop subtracts. */
  function TurnsDown(a: real): int {
    if a > Pi then ((a - Pi) / TwoPi).Floor + 1 else 0
  }

  /** How many full turns the second loop adds. */
  function TurnsUp(a: real): int {
    if a < -Pi then ((-Pi - a) / TwoPi).Floor + 1 else 0
  }

  lemma TurnsDownDecrease(a: real)
    requires a > Pi
    ensures 0 <= TurnsDown(a - TwoPi) < TurnsDown(a)
  {
  }

  lemma TurnsUpDecrease(a: real)
    requires a < -Pi
    ensures 0 <= TurnsUp(a + TwoPi) < TurnsUp(a)
  {
  }

  /** The first loop of `normalize_angle`: subtract full turns while the angle exceeds pi. */
  function WrapDown(a: real): (r: real)
    ensures r <= Pi
    ensures a > Pi ==> r > -Pi
    ensures a <= Pi ==> r == a
    decreases TurnsDown(a)
  {
    if a > Pi then TurnsDownDecrease(a); WrapDown(a - TwoPi) else a
  }

  /** The second loop of `normalize_angle`: add full turns while the angle is below -pi. */
  function WrapUp(a: real): (r: real)
    ensures r >= -Pi
    ensures a < -Pi ==> r < Pi
    ensures a >= -Pi ==> r == a
    decreases TurnsUp(a)
  {
    if a < -Pi then TurnsUpDecrease(a); WrapUp(a + TwoPi) else a
  }

  /** `normalize_angle`: the angle brought into [-pi, pi] by whole turns; angles already there are kept. */
  function Wrap(a: real): (r: real)
    ensures -Pi <= r <= Pi
    ensures -Pi <= a <= Pi ==> r == a
  {
    WrapUp(WrapDown(a))
  }

  /**
    A full turn added to or taken from any angle does not change its normal
    form, except where the turn lands on the other boundary: -pi and pi are
    both kept as they are.
   */
  lemma WrapFullTurn(a: real)
    ensures a != -Pi ==> Wrap(a + TwoPi) == Wrap(a)
    ensures a != Pi ==> Wrap(a - TwoPi) == Wrap(a)
    ensures Wrap(-Pi + TwoPi) != Wrap(-Pi) && Wrap(Pi - TwoPi) != Wrap(Pi)
  {
  }

  /** `k` whole turns. */
  function Turns(k: int): real {
    k as real * TwoPi
  }

  lemma {:induction false} WrapDownTurns(a: real)
    ensures exists k: int :: WrapDown(a) == a + Turns(k)
    decreases TurnsDown(a)
  {
    if a > Pi {
      TurnsDownDecrease(a);
      WrapDownTurns(a - TwoPi);
      var k: int :| WrapDown(a - TwoPi) == a - TwoPi + Turns(k);
      assert WrapDown(a) == a + Turns(k - 1);
    } else {
      assert WrapDown(a) == a + Turns(0);
    }
  }

  lemma {:induction false} WrapUpTurns(a: real)
    ensures exists k: int :: WrapUp(a) == a + Turns(k)
    decreases TurnsUp(a)
  {
    if a < -Pi {
      TurnsUpDecrease(a);
      WrapUpTurns(a + TwoPi);
      var k: int :| WrapUp(a + TwoPi) == a + TwoPi + Turns(k);
      assert WrapUp(a) == a + Turns(k + 1);
    } else {
      assert WrapUp(a) == a + Turns(0);
    }
  }

  /** Normalising only adds or removes whole turns: the result names the same direction. */
  lemma WrapByWholeTurns(a: real)
    ensures exists k: int :: Wrap(a) == a + Turns(k)
  {
    WrapDownTurns(a);
    var j: int :| WrapDown(a) == a + Turns(j);
    WrapUpTurns(WrapDown(a));
    var k: int :| Wrap(a) == WrapDown(a) + Turns(k);
    assert Wrap(a) == a + Turns(j + k);
  }

  /** `normalize_angle`, with its two loops. */
  method NormalizeAngle(angle: real) returns (r: real)
    ensures r == Wrap(angle)
  {
    r := angle;
    while r > Pi
      invariant WrapDown(r) == WrapDown(angle)
      decreases TurnsDown(r)
    {
      TurnsDownDecrease(r);
      r := r - TwoPi;
    }
    ghost var down := r;
    while r < -Pi
      invariant WrapUp(r) == WrapUp(down)
      decreases TurnsUp(r)
    {
      TurnsUpDecrease(r);
      r := r + TwoPi;
    }
  }
}
