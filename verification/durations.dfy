/** The part of duration handling that `add` and `subtract` perform before their
    (unimplemented) arithmetic: the rule that all nonzero fields share one sign. */
module Durations {

  import opened Wrappers

  datatype DurationRecord = DurationRecord(
    years: int, months: int, weeks: int, days: int,
    hours: int, minutes: int, seconds: int,
    milliseconds: int, microseconds: int, nanoseconds: int)

  /** The ten fields, largest unit first. */
  function Fields(d: DurationRecord): (f: seq<int>)
    ensures |f| == 10
  {
    [d.years, d.months, d.weeks, d.days, d.hours, d.minutes, d.seconds,
     d.milliseconds, d.microseconds, d.nanoseconds]
  }

  function Sign(x: int): int {
    if x < 0 then -1 else if x > 0 then 1 else 0
  }

  /** The sign of a duration: that of its first nonzero field, 0 if all are zero. */
  function DurationSign(f: seq<int>): (s: int)
    ensures -1 <= s <= 1
    ensures s == 0 <==> forall i :: 0 <= i < |f| ==> f[i] == 0
    ensures s != 0 ==> exists i :: 0 <= i < |f| && Sign(f[i]) == s && forall k :: 0 <= k < i ==> f[k] == 0
  {
    if f == [] then 0
    else if f[0] != 0 then Sign(f[0])
    else
      var s := DurationSign(f[1..]);
      assert forall i :: 1 <= i < |f| ==> f[i] == f[1..][i - 1];
      if s != 0 then
        var j :| 0 <= j < |f[1..]| && Sign(f[1..][j]) == s && forall k :: 0 <= k < j ==> f[1..][k] == 0;
        assert Sign(f[j + 1]) == s && forall k :: 0 <= k < j + 1 ==> f[k] == 0;
        s
      else s
  }

  /** Some field is positive and another negative. */
  ghost predicate MixedSigns(f: seq<int>) {
    exists i, j :: 0 <= i < |f| && 0 <= j < |f| && f[i] > 0 && f[j] < 0
  }

  /** RejectDurationSign: a RangeError unless every nonzero field has the duration's sign. */
  function RejectDurationSign(d: DurationRecord): (r: Result<()>)
    ensures r.Ok? <==> !MixedSigns(Fields(d))
    ensures r.Err? ==> r.error == RangeError
  {
    var f := Fields(d);
    var s := DurationSign(f);
    if forall i :: 0 <= i < |f| ==> f[i] == 0 || Sign(f[i]) == s then
      Ok(())
    else
      Err(RangeError)
  }
}
