/**
 * Calibration and mounting rotation of the IMU proxy over exact reals: the stored extremes are the true extremes of
 * everything read, calibrated axes are bounded, and the rotation keeps lengths.
 */
module Imu {
  import opened Bytes
  import opened LinearAlgebra

  const GRAVITY: real := 9.82

  // ---------------------------------------------------------------- one axis

  datatype Range = Range(min: real, max: real)

  function Widen(r: Range, v: real): Range {
    if v > r.max then r.(max := v) else if v < r.min then r.(min := v) else r
  }

  /** Centre and scale so that the range becomes [-target, target]; None where the source divides by zero. */
  function Calibrated(r: Range, v: real, target: real): Option<real> {
    var offset := (r.min + r.max) / 2.0;
    if r.max == offset then None else Some(Fit(v - offset, r.max - offset, target))
  }

  function Fit(x: real, h: real, target: real): real
    requires h != 0.0
  {
    x * (target / h)
  }

  /** The range after the first reading initialised it and the others widened it. */
  function RangeOf(vs: seq<real>): Range
    requires vs != []
  {
    if |vs| == 1 then Range(vs[0], vs[0]) else Widen(RangeOf(vs[..|vs| - 1]), vs[|vs| - 1])
  }

  /** The stored extremes are attained, and nothing read lies outside them. */
  lemma {:induction false} RangeIsExact(vs: seq<real>)
    requires vs != []
    ensures RangeOf(vs).min in vs && RangeOf(vs).max in vs
    ensures forall i :: 0 <= i < |vs| ==> RangeOf(vs).min <= vs[i] <= RangeOf(vs).max
    decreases |vs|
  {
    if |vs| > 1 {
      var init := vs[..|vs| - 1];
      RangeIsExact(init);
      assert forall x :: x in init ==> x in vs;
      assert forall i :: 0 <= i < |init| ==> vs[i] == init[i];
    }
  }

  /** A value is v moved by the affine map that sends the ends of the range to -target and target. */
  ghost predicate Rescaled(value: real, r: Range, v: real, target: real) {
    r.min != r.max ==> value * (r.max - r.min) == target * (2.0 * v - r.min - r.max)
  }

  /** Calibrating is the affine map that sends the two ends of the range to -target and target. */
  lemma CalibratedIsAffine(r: Range, v: real, target: real)
    requires r.min != r.max
    ensures Calibrated(r, v, target).Some?
    ensures Rescaled(Calibrated(r, v, target).value, r, v, target)
  {
    var offset := (r.min + r.max) / 2.0;
    FitTimes(v - offset, r.max - offset, target);
  }

  lemma EmptyRange(value: real, r: Range, v: real, target: real)
    ensures r.min == r.max ==> Rescaled(value, r, v, target)
  {
  }

  lemma FitTimes(x: real, h: real, target: real)
    requires h != 0.0
    ensures Fit(x, h, target) * (2.0 * h) == target * (2.0 * x)
  {
    var k := target / h;
    assert k * h == target;
    assert (x * k) * (2.0 * h) == (k * h) * (2.0 * x);
  }

  /** Inside a proper range the calibrated value is bounded, and the extremes map to the bounds. */
  lemma CalibratedBounded(r: Range, v: real, target: real)
    requires r.min < r.max && r.min <= v <= r.max && target > 0.0
    ensures Calibrated(r, v, target).Some? && -target <= Calibrated(r, v, target).value <= target
    ensures Calibrated(r, r.max, target) == Some(target) && Calibrated(r, r.min, target) == Some(-target)
  {
    var offset := (r.min + r.max) / 2.0;
    var h := r.max - offset;
    assert h > 0.0 && r.min - offset == -h;
    hide Fit;
    Scaled(h, v - offset, target);
    Scaled(h, h, target);
    Scaled(h, -h, target);
  }

  lemma Scaled(h: real, x: real, target: real)
    requires h > 0.0 && -h <= x <= h && target > 0.0
    ensures -target <= Fit(x, h, target) <= target
    ensures x == h ==> Fit(x, h, target) == target
    ensures x == -h ==> Fit(x, h, target) == -target
  {
    var k := target / h;
    Quotient(target, h);
    Monotone(x, h, k);
    Monotone(-x, h, k);
    assert (-x) * k == -(x * k);
  }

  lemma Quotient(a: real, b: real)
    requires a > 0.0 && b > 0.0
    ensures a / b > 0.0 && b * (a / b) == a
  {
  }

  lemma Monotone(a: real, b: real, k: real)
    requires a <= b && k >= 0.0
    ensures a * k <= b * k
  {
  }

  // ---------------------------------------------------------------- the rotation

  /** The cosine and sine of an angle. */
  datatype Angle = Angle(cos: real, sin: real) {
    ghost predicate Valid() {
      cos * cos + sin * sin == 1.0
    }
  }

  function RotX(a: Angle): Mat {
    Mat(Vec(1.0, 0.0, 0.0), Vec(0.0, a.cos, a.sin), Vec(0.0, -a.sin, a.cos))
  }

  function RotY(a: Angle): Mat {
    Mat(Vec(a.cos, 0.0, -a.sin), Vec(0.0, 1.0, 0.0), Vec(a.sin, 0.0, a.cos))
  }

  function RotZ(a: Angle): Mat {
    Mat(Vec(a.cos, a.sin, 0.0), Vec(-a.sin, a.cos, 0.0), Vec(0.0, 0.0, 1.0))
  }

  ghost predicate IsMounting(m: Mat) {
    exists roll: Angle, pitch: Angle, yaw: Angle ::
      roll.Valid() && pitch.Valid() && yaw.Valid() && m == MountRotation(roll, pitch, yaw)
  }

  /** rX * rY * rZ */
  function MountRotation(roll: Angle, pitch: Angle, yaw: Angle): Mat {
    Times(Times(RotX(roll), RotY(pitch)), RotZ(yaw))
  }

  function Inner(u: Vec, v: Vec): real {
    Mul(u.x, v.x) + Mul(u.y, v.y) + Mul(u.z, v.z)
  }

  /** (a, b) turned in its plane. */
  function Turn(t: Angle, a: real, b: real): (real, real) {
    (a * t.cos - b * t.sin, a * t.sin + b * t.cos)
  }

  /** A plane rotation keeps the inner product of its plane. */
  lemma PlaneRotation(t: Angle, a: real, b: real, p: real, q: real)
    requires t.Valid()
    ensures var u, v := Turn(t, a, b), Turn(t, p, q); Mul(u.0, v.0) + Mul(u.1, v.1) == Mul(a, p) + Mul(b, q)
  {
    var c, s := t.cos, t.sin;
    assert (a * c - b * s) * (p * c - q * s) + (a * s + b * c) * (p * s + q * c) == (a * p + b * q) * (c * c + s * s);
  }

  lemma AxisEntries(t: Angle, v: Vec)
    ensures Apply(RotX(t), v) == Vec(v.x, Turn(t, v.y, v.z).0, Turn(t, v.y, v.z).1)
    ensures Apply(RotY(t), v) == Vec(Turn(t, v.z, v.x).1, v.y, Turn(t, v.z, v.x).0)
    ensures Apply(RotZ(t), v) == Vec(Turn(t, v.x, v.y).0, Turn(t, v.x, v.y).1, v.z)
  {
  }

  /** Each of the three rotations keeps every inner product. */
  lemma AxisRotation(t: Angle, u: Vec, v: Vec)
    requires t.Valid()
    ensures Inner(Apply(RotX(t), u), Apply(RotX(t), v)) == Inner(u, v)
    ensures Inner(Apply(RotY(t), u), Apply(RotY(t), v)) == Inner(u, v)
    ensures Inner(Apply(RotZ(t), u), Apply(RotZ(t), v)) == Inner(u, v)
  {
    hide Apply, Turn, Mul;
    AxisEntries(t, u);
    AxisEntries(t, v);
    PlaneRotation(t, u.y, u.z, v.y, v.z);
    PlaneRotation(t, u.z, u.x, v.z, v.x);
    PlaneRotation(t, u.x, u.y, v.x, v.y);
  }

  /** The mounting rotation is orthogonal: it keeps every inner product, whatever the mounting angles. */
  lemma RotationIsOrthogonal(roll: Angle, pitch: Angle, yaw: Angle, u: Vec, v: Vec)
    requires roll.Valid() && pitch.Valid() && yaw.Valid()
    ensures var r := MountRotation(roll, pitch, yaw); Inner(Apply(r, u), Apply(r, v)) == Inner(u, v)
  {
    hide Apply, Inner, Times, RotX, RotY, RotZ;
    var x, y, z := RotX(roll), RotY(pitch), RotZ(yaw);
    ApplyTimes(Times(x, y), z, u);
    ApplyTimes(Times(x, y), z, v);
    ApplyTimes(x, y, Apply(z, u));
    ApplyTimes(x, y, Apply(z, v));
    AxisRotation(yaw, u, v);
    AxisRotation(pitch, Apply(z, u), Apply(z, v));
    AxisRotation(roll, Apply(y, Apply(z, u)), Apply(y, Apply(z, v)));
  }

  /** The columns of the mounting rotation: where it takes the three unit vectors. */
  lemma MountingAxes(roll: Angle, pitch: Angle, yaw: Angle)
    ensures var r := MountRotation(roll, pitch, yaw);
            && Apply(r, Vec(1.0, 0.0, 0.0)) == Vec(pitch.cos * yaw.cos,
                                                   roll.cos * yaw.sin + roll.sin * (pitch.sin * yaw.cos),
                                                   roll.sin * yaw.sin - roll.cos * (pitch.sin * yaw.cos))
            && Apply(r, Vec(0.0, 1.0, 0.0)) == Vec(-(pitch.cos * yaw.sin),
                                                   roll.cos * yaw.cos - roll.sin * (pitch.sin * yaw.sin),
                                                   roll.sin * yaw.cos + roll.cos * (pitch.sin * yaw.sin))
            && Apply(r, Vec(0.0, 0.0, 1.0)) == Vec(pitch.sin, -(roll.sin * pitch.cos), roll.cos * pitch.cos)
  {
    MountingImage(roll, pitch, yaw, Vec(1.0, 0.0, 0.0));
    MountingImage(roll, pitch, yaw, Vec(0.0, 1.0, 0.0));
    MountingImage(roll, pitch, yaw, Vec(0.0, 0.0, 1.0));
  }

  lemma MountingImage(roll: Angle, pitch: Angle, yaw: Angle, v: Vec)
    ensures Apply(MountRotation(roll, pitch, yaw), v) == Apply(RotX(roll), Apply(RotY(pitch), Apply(RotZ(yaw), v)))
  {
    hide Apply;
    ApplyTimes(Times(RotX(roll), RotY(pitch)), RotZ(yaw), v);
    ApplyTimes(RotX(roll), RotY(pitch), Apply(RotZ(yaw), v));
  }

  // ---------------------------------------------------------------- the device

  /** The i-th axis of all readings. */
  function Axis(readings: seq<seq<real>>, i: nat): (vs: seq<real>)
    requires i < 3 && forall k :: 0 <= k < |readings| ==> |readings[k]| == 3
    ensures |vs| == |readings| && forall k :: 0 <= k < |vs| ==> vs[k] == readings[k][i]
  {
    seq(|readings|, k requires 0 <= k < |readings| => readings[k][i])
  }

  class Sensor {
    const minVal: array<real>
    const maxVal: array<real>
    const lockCalibration: bool
    const target: real
    ghost var seen: seq<seq<real>>

    function RangeAt(i: nat): Range
      requires i < 3 && minVal.Length == maxVal.Length == 3
      reads minVal, maxVal
    {
      Range(minVal[i], maxVal[i])
    }

    /** Every reading since initialisation is accounted for, if the calibration is not locked. */
    ghost predicate Valid()
      reads this, minVal, maxVal
    {
      && minVal.Length == maxVal.Length == 3 && minVal != maxVal && target > 0.0
      && seen != [] && (forall k :: 0 <= k < |seen| ==> |seen[k]| == 3)
      && (!lockCalibration ==> forall i :: 0 <= i < 3 ==> RangeAt(i) == RangeOf(Axis(seen, i)))
    }

    /** initCalibration: both extremes are the first reading. */
    constructor (first: seq<real>, lockCalibration: bool, target: real)
      requires |first| == 3 && target > 0.0
      ensures Valid() && fresh(minVal) && fresh(maxVal) && seen == [first]
      ensures this.lockCalibration == lockCalibration && this.target == target
    {
      minVal := new real[3](i requires 0 <= i < 3 => first[i]);
      maxVal := new real[3](i requires 0 <= i < 3 => first[i]);
      this.lockCalibration, this.target := lockCalibration, target;
      seen := [first];
    }

    /**
     * CalibrateAccelerometer and CalibrateMagnetometer: widen the extremes unless locked, then centre and scale the
     * reading in place. Where the range is empty the floating-point result is not a number and stays open here.
     */
    method Calibrate(val: array<real>)
      requires Valid() && val.Length == 3 && val != minVal && val != maxVal
      modifies this`seen, minVal, maxVal, val
      ensures Valid() && seen == old(seen) + [old(val[..])]
      ensures forall i :: 0 <= i < 3 ==> RangeAt(i) == if lockCalibration then old(RangeAt(i)) else Widen(old(RangeAt(i)), old(val[i]))
      ensures forall i :: 0 <= i < 3 && Calibrated(RangeAt(i), old(val[i]), target).Some? ==>
        val[i] == Calibrated(RangeAt(i), old(val[i]), target).value
    {
      hide RangeOf, Calibrated;
      ghost var was, ranges := val[..], [RangeAt(0), RangeAt(1), RangeAt(2)];
      var i := 0;
      while i < 3
        invariant 0 <= i <= 3 && seen == old(seen)
        invariant forall j :: 0 <= j < i ==> RangeAt(j) == if lockCalibration then ranges[j] else Widen(ranges[j], was[j])
        invariant forall j :: i <= j < 3 ==> RangeAt(j) == ranges[j] && val[j] == was[j]
        invariant forall j :: 0 <= j < i && Calibrated(RangeAt(j), was[j], target).Some? ==>
          val[j] == Calibrated(RangeAt(j), was[j], target).value
      {
        if !lockCalibration {
          if val[i] > maxVal[i] {
            maxVal[i] := val[i];
          } else if val[i] < minVal[i] {
            minVal[i] := val[i];
          }
        }
        val[i] := ScaleAxis(minVal[i], maxVal[i], val[i]);
        i := i + 1;
      }
      seen := seen + [was];
      forall j | 0 <= j < 3 && !lockCalibration ensures RangeAt(j) == RangeOf(Axis(seen, j)) {
        RangeGrows(old(seen), was, j);
      }
    }

    method ScaleAxis(min: real, max: real, v: real) returns (r: real)
      ensures Calibrated(Range(min, max), v, target).Some? ==> r == Calibrated(Range(min, max), v, target).value
    {
      var offset := (min + max) / 2.0;
      if max == offset {
        r := *;
      } else {
        var scale := target / (max - offset);
        r := (v - offset) * scale;
        assert r == Fit(v - offset, max - offset, target);
      }
    }

    /** A published reading: calibrated, then rotated. */
    method Read(reading: seq<real>, rotation: Mat) returns (published: Vec, calibrated: Vec)
      requires Valid() && |reading| == 3
      modifies this`seen, minVal, maxVal
      ensures Valid() && seen == old(seen) + [reading]
      ensures lockCalibration ==> forall i :: 0 <= i < 3 ==> RangeAt(i) == old(RangeAt(i))
      ensures published == Apply(rotation, calibrated)
      ensures Rescaled(calibrated.x, RangeAt(0), reading[0], target) && Rescaled(calibrated.y, RangeAt(1), reading[1], target)
      ensures Rescaled(calibrated.z, RangeAt(2), reading[2], target)
      ensures !lockCalibration && (forall i :: 0 <= i < 3 ==> minVal[i] < maxVal[i]) ==>
        -target <= calibrated.x <= target && -target <= calibrated.y <= target && -target <= calibrated.z <= target
        && (IsMounting(rotation) ==> Inner(published, published) <= 3.0 * target * target)
    {
      hide Calibrated, RangeOf, Apply, Inner, IsMounting, Rescaled;
      var val := new real[3](i requires 0 <= i < 3 => reading[i]);
      assert val[..] == reading;
      Calibrate(val);
      calibrated := Vec(val[0], val[1], val[2]);
      published := Apply(rotation, calibrated);
      forall i | 0 <= i < 3 ensures Rescaled(val[i], RangeAt(i), reading[i], target) {
        EmptyRange(val[i], RangeAt(i), reading[i], target);
        if minVal[i] != maxVal[i] {
          CalibratedIsAffine(RangeAt(i), reading[i], target);
        }
      }
      if !lockCalibration && forall i :: 0 <= i < 3 ==> minVal[i] < maxVal[i] {
        forall i | 0 <= i < 3 ensures -target <= val[i] <= target {
          var vs := Axis(seen, i);
          RangeIsExact(vs);
          assert vs[|vs| - 1] == reading[i];
          CalibratedBounded(RangeAt(i), reading[i], target);
        }
        if IsMounting(rotation) {
          MountedBounded(rotation, calibrated, target);
        }
      }
    }
  }

  lemma RangeGrows(seen: seq<seq<real>>, reading: seq<real>, i: nat)
    requires i < 3 && seen != [] && |reading| == 3 && forall k :: 0 <= k < |seen| ==> |seen[k]| == 3
    ensures RangeOf(Axis(seen + [reading], i)) == Widen(RangeOf(Axis(seen, i)), reading[i])
  {
    var vs := Axis(seen + [reading], i);
    assert vs[..|vs| - 1] == Axis(seen, i);
  }

  /** A rotated vector whose axes are bounded by b has a squared length of at most 3 * b^2. */
  lemma MountedBounded(m: Mat, v: Vec, b: real)
    requires IsMounting(m) && -b <= v.x <= b && -b <= v.y <= b && -b <= v.z <= b
    ensures Inner(Apply(m, v), Apply(m, v)) <= 3.0 * b * b
  {
    hide Mul, Apply, MountRotation;
    var roll: Angle, pitch: Angle, yaw: Angle :|
      roll.Valid() && pitch.Valid() && yaw.Valid() && m == MountRotation(roll, pitch, yaw);
    RotationIsOrthogonal(roll, pitch, yaw, v, v);
    SquareBound(v.x, b);
    SquareBound(v.y, b);
    SquareBound(v.z, b);
    Triple(b);
  }

  lemma Triple(b: real)
    ensures 3.0 * b * b == Mul(b, b) + Mul(b, b) + Mul(b, b)
  {
  }

  /** The squared acceleration published is at most three times gravity squared. */
  lemma PublishedBounded(roll: Angle, pitch: Angle, yaw: Angle, calibrated: Vec)
    requires roll.Valid() && pitch.Valid() && yaw.Valid()
    requires -GRAVITY <= calibrated.x <= GRAVITY && -GRAVITY <= calibrated.y <= GRAVITY && -GRAVITY <= calibrated.z <= GRAVITY
    ensures var published := Apply(MountRotation(roll, pitch, yaw), calibrated);
            Inner(published, published) <= 3.0 * GRAVITY * GRAVITY
  {
    hide Apply, Inner, MountRotation;
    MountedBounded(MountRotation(roll, pitch, yaw), calibrated, GRAVITY);
  }

  lemma SquareBound(x: real, b: real)
    requires -b <= x <= b
    ensures Mul(x, x) <= Mul(b, b)
    decreases x < 0.0
  {
    if x >= 0.0 {
      Monotone(x, b, x);
      Monotone(x, b, b);
    } else {
      SquareBound(-x, b);
      NegateBoth(x, x);
    }
  }

  lemma NegateBoth(a: real, b: real)
    ensures Mul(-a, -b) == Mul(a, b)
  {
  }
}
