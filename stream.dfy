/**
 * The per-connection state of the streaming handler in main.go: the rotation
 * angle and the palette index, advanced once per tick after a frame is sent.
 * 2*math.Pi is a parameter (a floating-point constant the model does not
 * compute); the colour-advance test on the angle is a boolean input.
 */
module Stream {

  /** The palette of ANSI foreground colours. */
  const Colors: seq<string> := ["\U{1B}[31m", "\U{1B}[91m", "\U{1B}[95m", "\U{1B}[35m"]

  /** The rotation step per tick. */
  const Step: real := 0.2

  /**
   * The angle after one tick: advanced by the step and wrapped by one turn when
   * it exceeds twoPi (a strict test, so twoPi itself is kept).
   */
  function NextAngle(angle: real, twoPi: real): (a: real)
    ensures a == angle + Step || a == angle + Step - twoPi
    ensures twoPi >= 0.0 ==> (a <= twoPi <==> angle + Step <= 2.0 * twoPi)
  {
    var stepped := angle + Step;
    if stepped > twoPi then stepped - twoPi else stepped
  }

  /** The palette index after one tick: the next colour, cyclically, when advance holds. */
  function NextColor(colorIndex: nat, advance: bool): (n: nat)
    requires colorIndex < |Colors|
    ensures n < |Colors|
    ensures !advance ==> n == colorIndex
    ensures advance ==> (n == 0 <==> colorIndex == |Colors| - 1)
    ensures advance && n != 0 ==> n == colorIndex + 1
  {
    if advance then (colorIndex + 1) % |Colors| else colorIndex
  }

  /** A tick keeps the angle in [0, twoPi], bounds included, once twoPi exceeds the step. */
  lemma AngleStaysInTurn(angle: real, twoPi: real)
    requires twoPi > Step && 0.0 <= angle <= twoPi
    ensures 0.0 <= NextAngle(angle, twoPi) <= twoPi
  {
  }

  /** The upper bound is reached: the strict wrap test leaves an angle of exactly twoPi. */
  lemma AngleMayEqualTwoPi(twoPi: real)
    requires twoPi > Step
    ensures NextAngle(twoPi - Step, twoPi) == twoPi
  {
  }

  /** Advancing from 0.1 below one turn wraps to 0.1. */
  lemma WrapJustBelowTurn(twoPi: real)
    requires twoPi > Step
    ensures NextAngle(twoPi - 0.1, twoPi) == 0.1
  {
  }

  /** The state after a run of ticks, one per entry of advances. */
  function AfterTicks(angle: real, colorIndex: nat, twoPi: real, advances: seq<bool>): (real, nat)
    requires colorIndex < |Colors|
    decreases |advances|
  {
    if advances == [] then (angle, colorIndex)
    else AfterTicks(NextAngle(angle, twoPi), NextColor(colorIndex, advances[0]), twoPi, advances[1..])
  }

  /** The handler's loop keeps both parts of the state in range for any number of ticks. */
  lemma {:induction false} TicksStayInRange(angle: real, colorIndex: nat, twoPi: real, advances: seq<bool>)
    requires twoPi > Step && 0.0 <= angle <= twoPi && colorIndex < |Colors|
    ensures 0.0 <= AfterTicks(angle, colorIndex, twoPi, advances).0 <= twoPi
    ensures AfterTicks(angle, colorIndex, twoPi, advances).1 < |Colors|
    decreases |advances|
  {
    if advances != [] {
      AngleStaysInTurn(angle, twoPi);
      TicksStayInRange(NextAngle(angle, twoPi), NextColor(colorIndex, advances[0]), twoPi, advances[1..]);
    }
  }

  /** Four colour advances return to the starting colour. */
  lemma ColorCycles(angle: real, colorIndex: nat, twoPi: real)
    requires colorIndex < |Colors|
    ensures AfterTicks(angle, colorIndex, twoPi, [true, true, true, true]).1 == colorIndex
  {
    var s := [true, true, true, true];
    assert s[1..] == [true, true, true];
    assert s[1..][1..] == [true, true];
    assert s[1..][1..][1..] == [true];
  }

  /** The state one connection owns: the angle and the palette index. */
  class Session {
    const twoPi: real
    var angle: real
    var colorIndex: nat

    ghost predicate Valid()
      reads this
    {
      twoPi > Step && 0.0 <= angle <= twoPi && colorIndex < |Colors|
    }

    /** A new connection starts at angle 0 with the first colour. */
    constructor (twoPi: real)
      requires twoPi > Step
      ensures Valid() && this.twoPi == twoPi && angle == 0.0 && colorIndex == 0
    {
      this.twoPi := twoPi;
      angle := 0.0;
      colorIndex := 0;
    }

    /** The colour sequence the current frame is painted with. */
    function Color(): (code: string)
      reads this
      requires Valid()
      ensures code in Colors
    {
      Colors[colorIndex]
    }

    /** One tick after a frame is written: advance the angle, then maybe the colour. */
    method Tick(advance: bool)
      requires Valid()
      modifies this
      ensures Valid()
      ensures angle == NextAngle(old(angle), twoPi)
      ensures colorIndex == NextColor(old(colorIndex), advance)
    {
      angle := angle + Step;
      if angle > twoPi {
        angle := angle - twoPi;
      }
      if advance {
        colorIndex := (colorIndex + 1) % |Colors|;
      }
    }
  }
}
