/**
 * The staleness evaluator of checker.py: `sec_to_human` (choice of a
 * display unit by repeated division by 60) and `check_updated` (is a
 * timestamp older than the allowed lag?), with the clock as a parameter.
 */
module Staleness {
  import opened Wrappers

  /** The lag, in seconds, that every call site of the checker uses. */
  const ALERT_LAG: int := 86400

  /** The three display units of `sec_to_human`; there is no larger one. */
  datatype Unit = Secs | Mins | Hours

  /**
   * A rendered elapsed time: the magnitude shown and its unit. The
   * `%3.1f` decimal text of the magnitude is not modelled.
   */
  datatype Duration = Duration(magnitude: real, unit: Unit)

  /** How many seconds one of the unit is worth. */
  function Scale(u: Unit): real {
    match u
    case Secs => 1.0
    case Mins => 60.0
    case Hours => 3600.0
  }

  /**
   * The loop of `sec_to_human` as recursion: try each unit of `units` in
   * turn, keep the first under which the value is below 60, otherwise
   * divide by 60 and move on; past the last unit, it is Hours.
   */
  function HumanIn(x: real, units: seq<Unit>): Duration
    decreases |units|
  {
    if units == [] then Duration(x, Hours)
    else if x < 60.0 then Duration(x, units[0])
    else HumanIn(x / 60.0, units[1..])
  }

  /** The duration `sec_to_human` renders for a number of seconds. */
  function Human(seconds: int): (d: Duration)
    ensures d.unit == (if seconds < 60 then Secs else if seconds < 3600 then Mins else Hours)
    ensures d.magnitude * Scale(d.unit) == seconds as real
  {
    var x := seconds as real;
    assert [Secs, Mins][1..] == [Mins];
    assert [Mins][1..] == [];
    HumanIn(x, [Secs, Mins])
  }

  /** `sec_to_human` with its loop over the units Secs and Mins. */
  method SecToHuman(seconds: int) returns (d: Duration)
    ensures d == Human(seconds)
  {
    var units := [Secs, Mins];
    var x := seconds as real;
    var i := 0;
    while i < |units|
      invariant 0 <= i <= |units|
      invariant HumanIn(x, units[i..]) == Human(seconds)
    {
      if x < 60.0 {
        return Duration(x, units[i]);
      }
      x := x / 60.0;
      i := i + 1;
    }
    d := Duration(x, Hours);
  }

  /**
   * `check_updated` with the clock reading `now` as a parameter: a
   * duration exactly when `updated` is strictly older than `lag`.
   */
  function CheckUpdated(updated: int, now: int, lag: int): (r: Option<Duration>)
    ensures r.Some? <==> now - updated > lag
    ensures r.Some? ==> r.value.unit == Human(now - updated).unit
    ensures r.Some? ==> r.value.magnitude * Scale(r.value.unit) == (now - updated) as real
  {
    if updated < now - lag then Some(Human(now - updated)) else None
  }

  /**
   * With the checker's fixed lag of one day, a stale record is always
   * reported in Hours: the Secs and Mins units never reach a message.
   */
  lemma StaleIsInHours(updated: int, now: int)
    requires CheckUpdated(updated, now, ALERT_LAG).Some?
    ensures CheckUpdated(updated, now, ALERT_LAG).value.unit == Hours
    ensures CheckUpdated(updated, now, ALERT_LAG).value.magnitude > 24.0
  {
  }
}
