/** One eye-tracker sample and the single gaze point chosen from its two eyes
    (`getx` / `gety` in add_aoi_labels.py).
 */
module Gaze {
  import opened Seqs

  /** One recording row: left/right gaze coordinates in screen pixels (a
      reading that is not positive means "no data"), pupil diameters and the
      recording timestamp. */
  datatype Sample = Sample(
    leftX: real, rightX: real,
    leftY: real, rightY: real,
    pupilLeft: real, pupilRight: real,
    timestamp: real)

  /** The value `getx` / `gety` return when neither eye has a reading. */
  const Missing: real := -1.0

  predicate Positive(v: real) {
    v > 0.0
  }

  function Sum(xs: seq<real>): real {
    if |xs| == 0 then 0.0 else xs[0] + Sum(xs[1..])
  }

  function Mean(xs: seq<real>): real
    requires |xs| > 0
  {
    Sum(xs) / (|xs| as real)
  }

  /** Combines the left-eye and right-eye readings of one axis: the mean of
      the readings that are positive, or `Missing` when there are none. */
  function Combine(left: real, right: real): (c: real)
    ensures c == Missing <==> !Positive(left) && !Positive(right)
    ensures c != Missing ==> Positive(c)
    ensures Positive(left) && !Positive(right) ==> c == left
    ensures !Positive(left) && Positive(right) ==> c == right
    ensures Positive(left) && Positive(right) ==>
              (left <= c <= right || right <= c <= left) && c - left == right - c
  {
    if Positive(left) && Positive(right) then (left + right) / 2.0
    else if Positive(left) then left
    else if Positive(right) then right
    else Missing
  }

  /** `getx(row)`: the mean of the sample's positive X readings, or
      `Missing` when neither eye has one. */
  function GazeX(s: Sample): (x: real)
    ensures var present := Select([s.leftX, s.rightX], Positive);
            x == if |present| == 0 then Missing else Mean(present)
  {
    CombineIsMeanOfPositive(s.leftX, s.rightX);
    Combine(s.leftX, s.rightX)
  }

  /** `gety(row)`: the mean of the sample's positive Y readings, or
      `Missing` when neither eye has one. */
  function GazeY(s: Sample): (y: real)
    ensures var present := Select([s.leftY, s.rightY], Positive);
            y == if |present| == 0 then Missing else Mean(present)
  {
    CombineIsMeanOfPositive(s.leftY, s.rightY);
    Combine(s.leftY, s.rightY)
  }

  /** The combined coordinate is the arithmetic mean of whichever readings
      are positive, and `Missing` when none is. */
  lemma CombineIsMeanOfPositive(left: real, right: real)
    ensures var present := Select([left, right], Positive);
            Combine(left, right) == if |present| == 0 then Missing else Mean(present)
  {
    var present := Select([left, right], Positive);
    var tail := Select([right], Positive);
    assert [left, right][1..] == [right];
    assert [right][1..] == [];
    if Positive(right) {
      assert tail == [right];
    } else {
      assert tail == [];
    }
    if Positive(left) {
      assert present == [left] + tail;
      assert Sum([left] + tail) == left + Sum(tail);
    } else {
      assert present == tail;
    }
  }

  /** Left and right eye play symmetric roles. */
  lemma CombineSymmetric(left: real, right: real)
    ensures Combine(left, right) == Combine(right, left)
  {
  }
}
