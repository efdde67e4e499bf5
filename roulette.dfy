/**
  The roulette wheel of roulette.py: the European pocket order, the pocket
  colours, the pocket under the pointer for a final angle, and the state the
  spin animation updates frame by frame. Angles and speeds are exact reals;
  the two `random.uniform` draws are parameters.
*/
module Roulette {
  import opened Wrappers

  /** The pockets in wheel order, starting from the top slice at angle 0. */
  const Numbers: seq<int> := [
    0, 32, 15, 19, 4, 21, 2, 25, 17, 34, 6, 27,
    13, 36, 11, 30, 8, 23, 10, 5, 24, 16, 33, 1,
    20, 14, 31, 9, 22, 18, 29, 7, 28, 12, 35, 3, 26]

  const Pockets: int := 37

  /** Where each number sits on the wheel: the inverse of Numbers. */
  const Position: seq<int> := [
    0, 23, 6, 35, 4, 19, 10, 31, 16, 27, 18, 14,
    33, 12, 25, 2, 21, 8, 29, 3, 24, 5, 28, 17,
    20, 7, 36, 11, 32, 30, 15, 26, 1, 22, 9, 34, 13]

  /** Numbers lists 0 to 36, each once, with 0 first. */
  lemma NumbersArePockets()
    ensures |Numbers| == Pockets && Numbers[0] == 0
    ensures forall i :: 0 <= i < Pockets ==> 0 <= Numbers[i] < Pockets && Position[Numbers[i]] == i
    ensures forall n :: 0 <= n < Pockets ==> 0 <= Position[n] < Pockets && Numbers[Position[n]] == n
  {
  }

  /** No number appears twice, and every number from 0 to 36 appears. */
  lemma NumbersPermutation()
    ensures forall i, j :: 0 <= i < j < Pockets ==> Numbers[i] != Numbers[j]
    ensures forall n :: 0 <= n < Pockets <==> n in Numbers
  {
    NumbersArePockets();
    forall n | n in Numbers ensures 0 <= n < Pockets {
      var i :| 0 <= i < |Numbers| && Numbers[i] == n;
    }
  }

  const Green: string := "#136f63"
  const Red: string := "#e63946"
  const Dark: string := "#2b2d42"

  /** The colour of the slice at position `i`: green for 0, then red and dark by the parity of the position. */
  function ColorAt(i: int): string
    requires 0 <= i < Pockets
  {
    if Numbers[i] == 0 then Green else if i % 2 == 0 then Red else Dark
  }

  const Colors: seq<string> := seq(Pockets, i requires 0 <= i < Pockets => ColorAt(i))

  /**
    One colour per pocket; only the zero pocket is green; the others are red
    at even positions and dark at odd ones, so neighbouring pockets other
    than zero never share a colour.
  */
  lemma ColorsAlternate()
    ensures |Colors| == |Numbers|
    ensures forall i :: 0 <= i < Pockets ==> (Colors[i] == Green <==> i == 0)
    ensures forall i :: 1 <= i < Pockets ==> Colors[i] == if i % 2 == 0 then Red else Dark
    ensures forall i :: 1 <= i < Pockets - 1 ==> Colors[i] != Colors[i + 1]
  {
    NumbersArePockets();
    forall i | 1 <= i < Pockets
      ensures Colors[i] == if i % 2 == 0 then Red else Dark
    {
      assert Numbers[i] != 0 by {
        assert Position[Numbers[i]] == i;
      }
    }
    assert Colors[0] == Green;
    assert Red[1] != Dark[1] && Red[1] != Green[1] && Dark[1] != Green[1];
    forall i | 1 <= i < Pockets - 1 ensures Colors[i] != Colors[i + 1] {
      assert (i % 2 == 0) != ((i + 1) % 2 == 0);
    }
  }

  // ---------------------------------------------------------------
  // the winning pocket
  // ---------------------------------------------------------------

  const SliceAngle: real := 360.0 / 37.0

  /** Python's float `x % 360`: the remainder lies in `[0, 360)` for every `x`. */
  function Mod360(x: real): (r: real)
    ensures 0.0 <= r < 360.0
  {
    x - 360.0 * (x / 360.0).Floor as real
  }

  /** Adding a full turn does not change the remainder. */
  lemma Mod360Shift(x: real)
    ensures Mod360(x + 360.0) == Mod360(x)
  {
    assert (x + 360.0) / 360.0 == x / 360.0 + 1.0;
  }

  /** An angle already in `[0, 360)` is its own remainder. */
  lemma Mod360InRange(x: real)
    requires 0.0 <= x < 360.0
    ensures Mod360(x) == x
  {
  }

  /** The position under the pointer (at 90 degrees) when the wheel stops at `finalAngle`. */
  function WinningIndex(finalAngle: real): (i: int)
    ensures 0 <= i < Pockets
  {
    var adjusted := Mod360(90.0 - finalAngle - SliceAngle / 2.0);
    (adjusted / SliceAngle).Floor % Pockets
  }

  function WinningNumber(finalAngle: real): int {
    Numbers[WinningIndex(finalAngle)]
  }

  /** The final `% num_slices` never wraps: the slice count already lies below 37. */
  lemma WinningIndexNoWrap(finalAngle: real)
    ensures var adjusted := Mod360(90.0 - finalAngle - SliceAngle / 2.0);
      0 <= (adjusted / SliceAngle).Floor < Pockets
  {
    var adjusted := Mod360(90.0 - finalAngle - SliceAngle / 2.0);
    assert adjusted / SliceAngle == adjusted * 37.0 / 360.0;
  }

  /** The result is always one of the pockets. */
  lemma WinningIsPocket(finalAngle: real)
    ensures 0 <= WinningNumber(finalAngle) < Pockets && WinningNumber(finalAngle) in Numbers
  {
    NumbersArePockets();
  }

  /** A full turn more or less lands on the same pocket. */
  lemma WinningPeriodic(finalAngle: real)
    ensures WinningNumber(finalAngle + 360.0) == WinningNumber(finalAngle)
  {
    var x := 90.0 - (finalAngle + 360.0) - SliceAngle / 2.0;
    Mod360Shift(x);
    assert x + 360.0 == 90.0 - finalAngle - SliceAngle / 2.0;
  }

  /** The angle that puts the middle of slice `i` under the pointer. */
  function AngleFor(i: int): real {
    90.0 - SliceAngle / 2.0 - (i as real + 0.5) * 360.0 / 37.0
  }

  /** Every pocket can win: stopping with slice `i` centred under the pointer gives `Numbers[i]`. */
  lemma EveryPocketCanWin(i: int)
    requires 0 <= i < Pockets
    ensures WinningNumber(AngleFor(i)) == Numbers[i]
  {
    CentredSliceWins(i);
  }

  /** The pointer is over slice `i` when its middle is centred there. */
  lemma CentredSliceWins(i: int)
    requires 0 <= i < Pockets
    ensures WinningIndex(AngleFor(i)) == i
  {
    var x := i as real + 0.5;
    assert 0.5 <= x <= 36.5;
    var adjusted := 90.0 - AngleFor(i) - SliceAngle / 2.0;
    assert adjusted == x * 360.0 / 37.0;
    ScaleBack(x, adjusted);
    assert adjusted / SliceAngle == x;
    FloorHalf(i);
    assert 0.0 <= adjusted < 360.0;
    Mod360InRange(adjusted);
  }

  lemma ScaleBack(x: real, y: real)
    requires y == x * 360.0 / 37.0
    ensures y * 37.0 / 360.0 == x
  {
  }

  lemma FloorHalf(i: int)
    ensures (i as real + 0.5).Floor == i
  {
  }

  // ---------------------------------------------------------------
  // the animation
  // ---------------------------------------------------------------

  const StartSpeed: real := 50.0
  /** Frames are scheduled while the speed stays above this. */
  const StopSpeed: real := 0.3

  predicate DecelInRange(decel: real) {
    0.97 <= decel <= 0.985
  }

  lemma MulLe(a: real, b: real, c: real)
    requires a > 0.0 && b <= c
    ensures a * b <= a * c
  {
  }

  /** Above the stop speed, that is a drop of more than 4.5 thousandths of a degree per frame. */
  lemma MilliDrops(speed: real, slower: real)
    requires speed > StopSpeed && 0.0 < slower <= speed * 0.985
    ensures Milli(speed) >= Milli(slower) + 4 && Milli(slower) >= 0
  {
    var a := speed * 1000.0;
    var b := slower * 1000.0;
    assert a - b >= 4.5;
  }

  /** One frame's slowdown, with the slower speed named: it stays positive, and above the stop speed the measure drops. */
  lemma SlowsTo(speed: real, decel: real, slower: real)
    requires DecelInRange(decel) && speed > 0.0 && slower == speed * decel
    ensures 0.0 < slower < speed
    ensures slower > StopSpeed ==> 0 <= Milli(slower) < Milli(speed)
  {
    Between(speed, decel, slower);
    if slower > StopSpeed {
      MilliDrops(speed, slower);
    }
  }

  /** A frame slows the wheel to between 97% and 98.5% of its speed. */
  lemma Between(speed: real, decel: real, slower: real)
    requires DecelInRange(decel) && speed > 0.0 && slower == speed * decel
    ensures speed * 0.97 <= slower <= speed * 0.985
  {
    MulLe(speed, decel, 0.985);
    MulLe(speed, 0.97, decel);
  }

  /** The measure the animation decreases: the speed in thousandths of a degree per frame. */
  function Milli(speed: real): int {
    (speed * 1000.0).Floor
  }

  /**
    The angle at which the animation stops, started from `angle` with one
    frame at `speed` still to draw: each frame turns the wheel by the speed
    and slows it, until the speed falls to the stop speed.
  */
  function FinalAngle(angle: real, speed: real, decel: real): (a: real)
    requires DecelInRange(decel) && speed > 0.0
    ensures 0.0 <= a < 360.0
    decreases Milli(speed)
  {
    var next := Mod360(angle + speed);
    var slower := speed * decel;
    SlowsTo(speed, decel, slower);
    if slower > StopSpeed then
      FinalAngle(next, slower, decel)
    else next
  }

  /** The text of the result label. */
  datatype Label = Ready | SpinningText | Result(number: int)

  class Wheel {
    var angle: real
    /** True from the call of spin until the last frame; the spin button is disabled while it holds. */
    var spinning: bool
    var speed: real
    /** Decremented by every frame and never read: it does not influence when the wheel stops. */
    var totalSpins: real
    var decel: real
    var shown: Label

    predicate Valid()
      reads this
    {
      0.0 <= angle < 360.0 && (spinning ==> speed > 0.0 && DecelInRange(decel))
    }

    /** The module-level state: angle 0, not spinning, "Ready to spin!". */
    constructor ()
      ensures Valid() && angle == 0.0 && !spinning && shown == Ready
    {
      angle := 0.0;
      spinning := false;
      speed := 0.0;
      totalSpins := 0.0;
      decel := 0.97;
      shown := Ready;
    }

    /** The first half of `animate`: turn the wheel by the speed, count the turn down, slow the wheel. */
    method Turn()
      requires Valid() && spinning
      modifies this
      ensures Valid() && spinning && decel == old(decel) && shown == old(shown)
      ensures angle == Mod360(old(angle) + old(speed))
      ensures totalSpins == old(totalSpins) - old(speed)
      ensures speed == old(speed) * old(decel)
      ensures speed > StopSpeed ==> 0 <= Milli(speed) < Milli(old(speed))
    {
      var s0, d := speed, decel;
      var s1 := s0 * d;
      SlowsTo(s0, d, s1);
      angle := Mod360(angle + s0);
      totalSpins := totalSpins - s0;
      speed := s1;
    }

    /**
      One call of `animate`: turn, count down, slow; schedule the next frame
      while the speed is above the stop speed, otherwise show the pocket
      under the pointer and re-enable the button.
    */
    method Frame() returns (scheduled: bool)
      requires Valid() && spinning
      modifies this
      ensures Valid()
      ensures angle == Mod360(old(angle) + old(speed))
      ensures totalSpins == old(totalSpins) - old(speed)
      ensures speed == old(speed) * old(decel) && decel == old(decel)
      ensures scheduled <==> speed > StopSpeed
      ensures scheduled ==> 0 <= Milli(speed) < Milli(old(speed))
      ensures scheduled ==> spinning && shown == old(shown)
      ensures !scheduled ==> !spinning && shown == Result(WinningNumber(angle))
    {
      Turn();
      if speed > StopSpeed {
        return true;
      }
      shown := Result(WinningNumber(angle));
      spinning := false;
      scheduled := false;
    }

    /** `spin`: ignored while the wheel turns; otherwise the draws set up the spin and the first frame is drawn at once. */
    method Spin(spinsDraw: real, decelDraw: real) returns (scheduled: bool)
      requires Valid()
      requires 5.0 <= spinsDraw <= 8.0 && DecelInRange(decelDraw)
      modifies this
      ensures Valid()
      ensures old(spinning) ==> !scheduled && unchanged(this)
      ensures !old(spinning) ==>
        && scheduled && spinning && shown == SpinningText && decel == decelDraw
        && angle == Mod360(old(angle) + StartSpeed)
        && speed == StartSpeed * decelDraw
        && totalSpins == spinsDraw * 360.0 - StartSpeed
    {
      if spinning {
        return false;
      }
      spinning := true;
      shown := SpinningText;
      totalSpins := spinsDraw * 360.0;
      decel := decelDraw;
      speed := StartSpeed;
      scheduled := Frame();
    }

    /** The scheduled frames, run until the last one: the wheel stops at FinalAngle and shows the pocket there. */
    method RunFrames()
      requires Valid() && spinning
      modifies this
      ensures Valid() && !spinning && speed <= StopSpeed
      ensures angle == FinalAngle(old(angle), old(speed), old(decel))
      ensures shown == Result(WinningNumber(angle))
    {
      ghost var target := FinalAngle(angle, speed, decel);
      var more := true;
      while more
        invariant Valid() && (more <==> spinning)
        invariant more ==> FinalAngle(angle, speed, decel) == target
        invariant !more ==> angle == target && speed <= StopSpeed && shown == Result(WinningNumber(angle))
        decreases if more then Milli(speed) + 1 else 0
      {
        more := Frame();
      }
    }

    /**
      A whole spin from rest: the pocket shown depends only on the angle the
      wheel was at and the deceleration draw; the draw of the number of
      turns has no effect.
    */
    method SpinToEnd(spinsDraw: real, decelDraw: real)
      requires Valid() && !spinning
      requires 5.0 <= spinsDraw <= 8.0 && DecelInRange(decelDraw)
      modifies this
      ensures Valid() && !spinning
      ensures angle == FinalAngle(old(angle), StartSpeed, decelDraw)
      ensures shown == Result(WinningNumber(angle))
    {
      var scheduled := Spin(spinsDraw, decelDraw);
      RunFrames();
    }
  }
}
